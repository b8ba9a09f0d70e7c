/**
 The runtime dependency graph of a frozen lock. A worklist activates extras as it meets
 them and re-expands a package whenever new ones arrive; the theorems say that it computes
 the least closed activation, terminates on cyclic graphs, and does not depend on order.
 */
module LockGraph {
  import opened Sorting
  import opened NodeIds

  // ----- data model: TOML values as far as the resolver inspects them

  datatype Value = Str(s: string) | List(items: seq<Value>) | Table(entries: map<string, Value>) | Scalar

  type Package = map<string, Value>

  datatype Request = Request(name: string, extras: set<string>)

  datatype Reading = NoRequest | Malformed | Wanted(request: Request)

  /** A dependency entry read as a request; entries without a string name are skipped. */
  function ReadRequest(item: Value): Reading {
    if item.Table? && "name" in item.entries && item.entries["name"].Str? then
      var raw :=
        if "extra" in item.entries then item.entries["extra"]
        else if "extras" in item.entries then item.entries["extras"]
        else List([]);
      if raw.List? && (forall x :: x in raw.items ==> x.Str?)
      then Wanted(Request(item.entries["name"].s, set x | x in raw.items && x.Str? :: x.s))
      else Malformed
    else NoRequest
  }

  /** All requests of a list in order; None if an entry is malformed. */
  function ReadAll(items: seq<Value>): Option<seq<Request>> {
    if items == [] then Some([])
    else
      var n := |items| - 1;
      match (ReadAll(items[..n]), ReadRequest(items[n]))
      case (None, _) => None
      case (_, Malformed) => None
      case (front, NoRequest) => front
      case (Some(front), Wanted(r)) => Some(front + [r])
  }

  lemma {:induction false} ReadAllMeans(items: seq<Value>)
    ensures ReadAll(items).Some? <==> forall item :: item in items ==> ReadRequest(item) != Malformed
    ensures ReadAll(items).Some? ==> forall r ::
      r in ReadAll(items).value <==> exists item :: item in items && ReadRequest(item) == Wanted(r)
  {
    if items != [] {
      var n := |items| - 1;
      ReadAllMeans(items[..n]);
      SplitLast(items);
    }
  }

  // ----- what a package lists

  function Base(p: Package): Option<seq<Value>> {
    if "dependencies" !in p then Some([])
    else if p["dependencies"].List? then Some(p["dependencies"].items)
    else None
  }

  function Optional(p: Package): Option<map<string, Value>> {
    if "optional-dependencies" !in p then Some(map[])
    else if p["optional-dependencies"].Table? then Some(p["optional-dependencies"].entries)
    else None
  }

  function ExtraItems(p: Package, extra: string): Option<seq<Value>> {
    var optional := Optional(p);
    if optional.Some? && extra in optional.value && optional.value[extra].List?
    then Some(optional.value[extra].items) else None
  }

  /** The base list followed by the lists of these extras; None if any is missing. */
  function ExpandOver(p: Package, extras: seq<string>): Option<seq<Value>> {
    if extras == [] then
      if Optional(p).None? then None else Base(p)
    else
      var n := |extras| - 1;
      match (ExpandOver(p, extras[..n]), ExtraItems(p, extras[n]))
      case (Some(front), Some(items)) => Some(front + items)
      case (_, _) => None
  }

  function Expand(p: Package, extras: set<string>): Option<seq<Value>> {
    ExpandOver(p, SortedMembers(extras))
  }

  /** item is listed by the package or by one of these extras. */
  ghost predicate Lists(p: Package, extras: set<string>, item: Value) {
    || (Base(p).Some? && item in Base(p).value)
    || (exists e :: e in extras && ExtraItems(p, e).Some? && item in ExtraItems(p, e).value)
  }

  /** The package is well formed and offers all of these extras. */
  ghost predicate Offers(p: Package, extras: set<string>) {
    Base(p).Some? && Optional(p).Some? && forall e :: e in extras ==> ExtraItems(p, e).Some?
  }

  lemma {:induction false} ExpandOverMeans(p: Package, extras: seq<string>)
    ensures ExpandOver(p, extras).Some? <==> Offers(p, MemberSet(extras))
    ensures ExpandOver(p, extras).Some? ==> forall item ::
      item in ExpandOver(p, extras).value <==> Lists(p, MemberSet(extras), item)
  {
    if extras != [] {
      var n := |extras| - 1;
      ExpandOverMeans(p, extras[..n]);
      SplitLast(extras);
      assert MemberSet(extras) == MemberSet(extras[..n]) + {extras[n]};
    }
  }

  lemma ExpandMeans(p: Package, extras: set<string>)
    ensures Expand(p, extras).Some? <==> Offers(p, extras)
    ensures Expand(p, extras).Some? ==> forall item :: item in Expand(p, extras).value <==> Lists(p, extras, item)
  {
    ExpandOverMeans(p, SortedMembers(extras));
    assert MemberSet(SortedMembers(extras)) == extras;
  }

  // ----- reachability: the specification, free of any order

  ghost predicate AskedByRoots(roots: seq<Value>, r: Request) {
    exists item :: item in roots && ReadRequest(item) == Wanted(r)
  }

  /** Resolving request q asks for r. */
  ghost predicate Asks(packages: map<string, Package>, q: Request, r: Request) {
    q.name in packages && exists item :: Lists(packages[q.name], q.extras, item) && ReadRequest(item) == Wanted(r)
  }

  ghost predicate Chain(packages: map<string, Package>, roots: seq<Value>, path: seq<Request>) {
    && path != [] && AskedByRoots(roots, path[0])
    && forall i :: 0 <= i < |path| - 1 ==> Asks(packages, path[i], path[i + 1])
  }

  ghost predicate Reachable(packages: map<string, Package>, roots: seq<Value>, r: Request) {
    exists path :: Chain(packages, roots, path) && path[|path| - 1] == r
  }

  /** A request that cannot be resolved: its package is missing or malformed, an extra is
      not offered, or something it lists is a malformed entry. */
  ghost predicate FaultyRequest(packages: map<string, Package>, r: Request) {
    || r.name !in packages
    || !Offers(packages[r.name], r.extras)
    || exists item :: Lists(packages[r.name], r.extras, item) && ReadRequest(item) == Malformed
  }

  ghost predicate Fault(packages: map<string, Package>, roots: seq<Value>) {
    || (exists item :: item in roots && ReadRequest(item) == Malformed)
    || (exists r :: Reachable(packages, roots, r) && FaultyRequest(packages, r))
  }

  lemma RootIsReachable(packages: map<string, Package>, roots: seq<Value>, r: Request)
    requires AskedByRoots(roots, r)
    ensures Reachable(packages, roots, r)
  {
    assert Chain(packages, roots, [r]);
  }

  lemma StepIsReachable(packages: map<string, Package>, roots: seq<Value>, q: Request, r: Request)
    requires Reachable(packages, roots, q) && Asks(packages, q, r)
    ensures Reachable(packages, roots, r)
  {
    var path :| Chain(packages, roots, path) && path[|path| - 1] == q;
    var longer := path + [r];
    assert Chain(packages, roots, longer);
  }

  // ----- what the resolver returns

  type Activation = map<string, set<string>>

  ghost predicate Covered(active: Activation, r: Request) {
    r.name in active && r.extras <= active[r.name]
  }

  /** The roots and everything the active packages list are covered. */
  ghost predicate Closed(packages: map<string, Package>, roots: seq<Value>, active: Activation) {
    && (forall r :: AskedByRoots(roots, r) ==> Covered(active, r))
    && (forall n, r :: n in active && Asks(packages, Request(n, active[n]), r) ==> Covered(active, r))
  }

  ghost predicate Within(a: Activation, b: Activation) {
    forall n :: n in a ==> n in b && a[n] <= b[n]
  }

  /** Some reachable request names this package. */
  ghost predicate ReachesName(packages: map<string, Package>, roots: seq<Value>, n: string) {
    exists r :: Reachable(packages, roots, r) && r.name == n
  }

  /** Some reachable request asks this extra of this package. */
  ghost predicate ReachesExtra(packages: map<string, Package>, roots: seq<Value>, n: string, e: string) {
    exists r :: Reachable(packages, roots, r) && r.name == n && e in r.extras
  }

  /** active names the reachable packages, each with the extras reachable requests give it. */
  ghost predicate ExactlyReachable(packages: map<string, Package>, roots: seq<Value>, active: Activation) {
    && (forall n :: n in active <==> ReachesName(packages, roots, n))
    && (forall n, e :: n in active ==> (e in active[n] <==> ReachesExtra(packages, roots, n, e)))
  }

  datatype Resolution = Resolution(selected: map<string, seq<Value>>, active: Activation)

  ghost predicate Resolved(packages: map<string, Package>, roots: seq<Value>, s: Resolution) {
    && ExactlyReachable(packages, roots, s.active)
    && s.selected.Keys == s.active.Keys <= packages.Keys
    && forall n :: n in s.selected ==> Expand(packages[n], s.active[n]) == Some(s.selected[n])
  }

  // ----- order-free facts about closed activations

  lemma {:induction false} ClosedCoversChain(packages: map<string, Package>, roots: seq<Value>, active: Activation,
                                             path: seq<Request>)
    requires Closed(packages, roots, active) && Chain(packages, roots, path)
    ensures Covered(active, path[|path| - 1])
    decreases |path|
  {
    var n := |path| - 1;
    if n > 0 {
      var front := path[..n];
      forall i | 0 <= i < |front| - 1 ensures Asks(packages, front[i], front[i + 1]) {
        assert Asks(packages, path[i], path[i + 1]);
      }
      assert Chain(packages, roots, front);
      ClosedCoversChain(packages, roots, active, front);
      var q, r := path[n - 1], path[n];
      assert Asks(packages, q, r);
      AsksMore(packages, q, active[q.name], r);
    }
  }

  lemma AsksMore(packages: map<string, Package>, q: Request, extras: set<string>, r: Request)
    requires Asks(packages, q, r) && q.extras <= extras
    ensures Asks(packages, Request(q.name, extras), r)
  {
    var item :| Lists(packages[q.name], q.extras, item) && ReadRequest(item) == Wanted(r);
    assert Lists(packages[q.name], extras, item);
  }

  lemma ClosedCoversReachable(packages: map<string, Package>, roots: seq<Value>, active: Activation, r: Request)
    requires Closed(packages, roots, active) && Reachable(packages, roots, r)
    ensures Covered(active, r)
  {
    var path :| Chain(packages, roots, path) && path[|path| - 1] == r;
    ClosedCoversChain(packages, roots, active, path);
  }

  /** The extras of an active package come from reachable requests. */
  ghost predicate Justified(packages: map<string, Package>, roots: seq<Value>, active: Activation) {
    && (forall n :: n in active ==> ReachesName(packages, roots, n))
    && (forall n, e :: n in active && e in active[n] ==> ReachesExtra(packages, roots, n, e))
  }

  lemma JustifiedItem(packages: map<string, Package>, roots: seq<Value>, active: Activation, n: string, item: Value)
    returns (r: Request)
    requires Justified(packages, roots, active) && n in active && n in packages
    requires Lists(packages[n], active[n], item)
    ensures Reachable(packages, roots, r) && r.name == n && Lists(packages[n], r.extras, item)
  {
    if Base(packages[n]).Some? && item in Base(packages[n]).value {
      assert ReachesName(packages, roots, n);
      r :| Reachable(packages, roots, r) && r.name == n;
    } else {
      var e :| e in active[n] && ExtraItems(packages[n], e).Some? && item in ExtraItems(packages[n], e).value;
      assert ReachesExtra(packages, roots, n, e);
      r :| Reachable(packages, roots, r) && r.name == n && e in r.extras;
    }
  }

  lemma JustifiedAsk(packages: map<string, Package>, roots: seq<Value>, active: Activation, n: string, r: Request)
    requires Justified(packages, roots, active) && n in active
    requires Asks(packages, Request(n, active[n]), r)
    ensures Reachable(packages, roots, r)
  {
    var item :| Lists(packages[n], active[n], item) && ReadRequest(item) == Wanted(r);
    var q := JustifiedItem(packages, roots, active, n, item);
    assert Asks(packages, q, r);
    StepIsReachable(packages, roots, q, r);
  }

  lemma ClosedCoversNames(packages: map<string, Package>, roots: seq<Value>, active: Activation, n: string)
    requires Closed(packages, roots, active) && ReachesName(packages, roots, n)
    ensures n in active
  {
    var r :| Reachable(packages, roots, r) && r.name == n;
    ClosedCoversReachable(packages, roots, active, r);
  }

  lemma ClosedCoversExtras(packages: map<string, Package>, roots: seq<Value>, active: Activation, n: string, e: string)
    requires Closed(packages, roots, active) && ReachesExtra(packages, roots, n, e)
    ensures n in active && e in active[n]
  {
    var r :| Reachable(packages, roots, r) && r.name == n && e in r.extras;
    ClosedCoversReachable(packages, roots, active, r);
  }

  lemma ClosedAndJustified(packages: map<string, Package>, roots: seq<Value>, active: Activation)
    requires Closed(packages, roots, active) && Justified(packages, roots, active)
    ensures ExactlyReachable(packages, roots, active)
  {
    forall n | ReachesName(packages, roots, n) ensures n in active {
      ClosedCoversNames(packages, roots, active, n);
    }
    forall n, e | n in active && ReachesExtra(packages, roots, n, e) ensures e in active[n] {
      ClosedCoversExtras(packages, roots, active, n, e);
    }
  }

  lemma ReachableIsCovered(packages: map<string, Package>, roots: seq<Value>, active: Activation, r: Request)
    requires ExactlyReachable(packages, roots, active) && Reachable(packages, roots, r)
    ensures Covered(active, r)
  {
    assert ReachesName(packages, roots, r.name);
    forall e | e in r.extras ensures e in active[r.name] {
      assert ReachesExtra(packages, roots, r.name, e);
    }
  }

  lemma ExactIsClosed(packages: map<string, Package>, roots: seq<Value>, active: Activation)
    requires ExactlyReachable(packages, roots, active)
    ensures Closed(packages, roots, active)
  {
    forall r | AskedByRoots(roots, r) ensures Covered(active, r) {
      RootIsReachable(packages, roots, r);
      ReachableIsCovered(packages, roots, active, r);
    }
    forall n, r | n in active && Asks(packages, Request(n, active[n]), r) ensures Covered(active, r) {
      JustifiedAsk(packages, roots, active, n, r);
      ReachableIsCovered(packages, roots, active, r);
    }
  }

  /** The resolution is closed, and lies within every closed activation: the least fixpoint. */
  lemma ResolutionIsLeast(packages: map<string, Package>, roots: seq<Value>, s: Resolution, other: Activation)
    requires Resolved(packages, roots, s)
    ensures Closed(packages, roots, s.active)
    ensures Closed(packages, roots, other) ==> Within(s.active, other)
  {
    ExactIsClosed(packages, roots, s.active);
    if Closed(packages, roots, other) {
      forall n | n in s.active ensures n in other && s.active[n] <= other[n] {
        ClosedCoversNames(packages, roots, other, n);
        forall e | e in s.active[n] ensures e in other[n] {
          ClosedCoversExtras(packages, roots, other, n, e);
        }
      }
    }
  }

  // ----- the same in the terms of the lock file

  /** v is a list of strings, and names are its members. */
  ghost predicate ListsStrings(v: Value, names: set<string>) {
    && v.List? && (forall x :: x in v.items ==> x.Str?)
    && forall e :: e in names <==> Str(e) in v.items
  }

  /** The extras of an entry: what stands under `extra`; only without that key what stands under
      `extras`; and none without either. */
  ghost predicate AsksExtras(entries: map<string, Value>, names: set<string>) {
    if "extra" in entries then ListsStrings(entries["extra"], names)
    else if "extras" in entries then ListsStrings(entries["extras"], names)
    else names == {}
  }

  ghost predicate NamesPackage(item: Value, n: string) {
    item.Table? && "name" in item.entries && item.entries["name"] == Str(n)
  }

  lemma StringsOf(v: Value, names: set<string>)
    requires v.List? && forall x :: x in v.items ==> x.Str?
    ensures ListsStrings(v, names) <==> names == set x | x in v.items && x.Str? :: x.s
  {
    var read := set x | x in v.items && x.Str? :: x.s;
    forall e ensures e in read <==> Str(e) in v.items {
      if Str(e) in v.items {
        assert Str(e).s in read;
      }
    }
  }

  /** What an entry is read as, with the extras it asks for. */
  lemma ReadsAs(item: Value, r: Request)
    ensures ReadRequest(item) == Wanted(r) <==> NamesPackage(item, r.name) && AsksExtras(item.entries, r.extras)
  {
    if item.Table? && "name" in item.entries && item.entries["name"].Str? {
      var raw :=
        if "extra" in item.entries then item.entries["extra"]
        else if "extras" in item.entries then item.entries["extras"]
        else List([]);
      if raw.List? && forall x :: x in raw.items ==> x.Str? {
        StringsOf(raw, r.extras);
      }
    }
  }

  /** The extras of an entry are not a list of strings. */
  ghost predicate BadExtras(entries: map<string, Value>) {
    forall names :: !AsksExtras(entries, names)
  }

  /** An entry is an error exactly when it names a package and its extras are not a list of strings;
      it is skipped exactly when it names none. */
  lemma ReadsMalformed(item: Value)
    ensures ReadRequest(item) == Malformed <==> (exists n :: NamesPackage(item, n)) && BadExtras(item.entries)
    ensures ReadRequest(item) == NoRequest <==> forall n :: !NamesPackage(item, n)
  {
    match ReadRequest(item)
    case Wanted(r) =>
      ReadsAs(item, r);
      assert NamesPackage(item, r.name) && AsksExtras(item.entries, r.extras);
    case NoRequest =>
    case Malformed =>
      assert NamesPackage(item, item.entries["name"].s);
      forall names ensures !AsksExtras(item.entries, names) {
        ReadsAs(item, Request(item.entries["name"].s, names));
      }
  }

  /** Entries under `dependencies`, and under an extra of `optional-dependencies`. */
  ghost predicate InBase(p: Package, item: Value) {
    "dependencies" in p && p["dependencies"].List? && item in p["dependencies"].items
  }

  ghost predicate InExtra(p: Package, e: string, item: Value) {
    && "optional-dependencies" in p && p["optional-dependencies"].Table?
    && e in p["optional-dependencies"].entries && p["optional-dependencies"].entries[e].List?
    && item in p["optional-dependencies"].entries[e].items
  }

  lemma ListsMeans(p: Package, extras: set<string>, item: Value)
    ensures Lists(p, extras, item) <==> InBase(p, item) || exists e :: e in extras && InExtra(p, e, item)
  {
    if Lists(p, extras, item) && !InBase(p, item) {
      var e :| e in extras && ExtraItems(p, e).Some? && item in ExtraItems(p, e).value;
      assert InExtra(p, e, item);
    }
    if e :| e in extras && InExtra(p, e, item) {
      assert ExtraItems(p, e) == Some(p["optional-dependencies"].entries[e].items);
    }
  }

  /** A package offers extras exactly when its lists are well formed and it has a list for each. */
  lemma OffersMeans(p: Package, extras: set<string>)
    ensures Offers(p, extras) <==>
      && ("dependencies" in p ==> p["dependencies"].List?)
      && ("optional-dependencies" in p ==> p["optional-dependencies"].Table?)
      && forall e :: e in extras ==>
        && "optional-dependencies" in p
        && e in p["optional-dependencies"].entries && p["optional-dependencies"].entries[e].List?
  {
  }

  /** The stored list of a selected package: its own entries and those of its activated extras. */
  lemma StoredMeans(packages: map<string, Package>, roots: seq<Value>, s: Resolution, n: string, item: Value)
    requires Resolved(packages, roots, s) && n in s.selected
    ensures item in s.selected[n] <==>
      InBase(packages[n], item) || exists e :: e in s.active[n] && InExtra(packages[n], e, item)
  {
    ExpandMeans(packages[n], s.active[n]);
    ListsMeans(packages[n], s.active[n], item);
  }

  /** An entry the resolution follows: of the roots, or of a stored list. */
  ghost predicate Followed(roots: seq<Value>, s: Resolution, item: Value) {
    item in roots || exists n :: n in s.selected && item in s.selected[n]
  }

  lemma FollowedIsCovered(packages: map<string, Package>, roots: seq<Value>, s: Resolution, item: Value, r: Request)
    requires Resolved(packages, roots, s) && Followed(roots, s, item) && ReadRequest(item) == Wanted(r)
    ensures Covered(s.active, r)
  {
    if item in roots {
      RootIsReachable(packages, roots, r);
    } else {
      var n :| n in s.selected && item in s.selected[n];
      StoredIsReachable(packages, roots, s, n, item, r);
    }
    ReachableIsCovered(packages, roots, s.active, r);
  }

  lemma StoredIsReachable(packages: map<string, Package>, roots: seq<Value>, s: Resolution, n: string, item: Value,
                          r: Request)
    requires Resolved(packages, roots, s) && n in s.selected && item in s.selected[n]
    requires ReadRequest(item) == Wanted(r)
    ensures Reachable(packages, roots, r)
  {
    ExpandMeans(packages[n], s.active[n]);
    assert Asks(packages, Request(n, s.active[n]), r);
    JustifiedAsk(packages, roots, s.active, n, r);
  }

  lemma FollowedIsSound(packages: map<string, Package>, roots: seq<Value>, s: Resolution, item: Value)
    requires Resolved(packages, roots, s) && !Fault(packages, roots) && Followed(roots, s, item)
    ensures ReadRequest(item) != Malformed
  {
    if item !in roots {
      var n :| n in s.selected && item in s.selected[n];
      ExpandMeans(packages[n], s.active[n]);
      var q := JustifiedItem(packages, roots, s.active, n, item);
      assert !FaultyRequest(packages, q);
    }
  }

  /** The package an entry names is selected, with every extra the entry asks for. */
  lemma FollowedIsResolved(packages: map<string, Package>, roots: seq<Value>, s: Resolution, item: Value, n: string)
    requires Resolved(packages, roots, s) && !Fault(packages, roots)
    requires Followed(roots, s, item) && NamesPackage(item, n)
    ensures n in s.selected && n in s.active
    ensures forall e :: AsksExtra(item.entries, e) ==> e in s.active[n]
  {
    FollowedIsSound(packages, roots, s, item);
    ReadsMalformed(item);
    var r := ReadRequest(item).request;
    ReadsAs(item, r);
    FollowedIsCovered(packages, roots, s, item, r);
    forall e | AsksExtra(item.entries, e) ensures e in s.active[n] {
      AsksOne(item.entries, r.extras, e);
    }
  }

  /** e stands in the list under `extra`, or, only without that key, in the one under `extras`. */
  ghost predicate AsksExtra(entries: map<string, Value>, e: string) {
    if "extra" in entries then entries["extra"].List? && Str(e) in entries["extra"].items
    else "extras" in entries && entries["extras"].List? && Str(e) in entries["extras"].items
  }

  lemma AsksOne(entries: map<string, Value>, names: set<string>, e: string)
    requires AsksExtras(entries, names)
    ensures e in names <==> AsksExtra(entries, e)
  {
  }

  /** Nothing else is selected or activated: some followed entry names the package, and some
      followed entry of the package asks for the extra. */
  lemma ResolvedIsFollowed(packages: map<string, Package>, roots: seq<Value>, s: Resolution, n: string)
    requires Resolved(packages, roots, s) && n in s.selected
    ensures exists item :: Followed(roots, s, item) && NamesPackage(item, n)
    ensures forall e :: e in s.active[n] ==>
      exists item :: Followed(roots, s, item) && NamesPackage(item, n) && AsksExtra(item.entries, e)
  {
    assert ReachesName(packages, roots, n);
    var r :| Reachable(packages, roots, r) && r.name == n;
    var item := FollowedFor(packages, roots, s, r);
    forall e | e in s.active[n]
      ensures exists item :: Followed(roots, s, item) && NamesPackage(item, n) && AsksExtra(item.entries, e)
    {
      assert ReachesExtra(packages, roots, n, e);
      var q :| Reachable(packages, roots, q) && q.name == n && e in q.extras;
      var asking := FollowedFor(packages, roots, s, q);
      AsksOne(asking.entries, q.extras, e);
    }
  }

  lemma FollowedFor(packages: map<string, Package>, roots: seq<Value>, s: Resolution, r: Request)
    returns (item: Value)
    requires Resolved(packages, roots, s) && Reachable(packages, roots, r)
    ensures Followed(roots, s, item) && NamesPackage(item, r.name) && AsksExtras(item.entries, r.extras)
  {
    var path: seq<Request> :| Chain(packages, roots, path) && path[|path| - 1] == r;
    var k := |path| - 1;
    if k == 0 {
      item :| item in roots && ReadRequest(item) == Wanted(r);
    } else {
      var q: Request := path[k - 1];
      assert Asks(packages, path[k - 1], path[k - 1 + 1]);
      item :| Lists(packages[q.name], q.extras, item) && ReadRequest(item) == Wanted(r);
      PrefixReaches(packages, roots, path);
      ReachableIsCovered(packages, roots, s.active, q);
      assert Lists(packages[q.name], s.active[q.name], item);
      ExpandMeans(packages[q.name], s.active[q.name]);
    }
    ReadsAs(item, r);
  }

  lemma PrefixReaches(packages: map<string, Package>, roots: seq<Value>, path: seq<Request>)
    requires Chain(packages, roots, path) && |path| >= 2
    ensures Reachable(packages, roots, path[|path| - 2])
  {
    var front := path[..|path| - 1];
    forall i | 0 <= i < |front| - 1 ensures Asks(packages, front[i], front[i + 1]) {
      assert Asks(packages, path[i], path[i + 1]);
    }
    assert Chain(packages, roots, front);
  }
}
