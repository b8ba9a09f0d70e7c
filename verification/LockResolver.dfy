/** The resolver's worklist, against the order-free specification of `LockGraph`. */
module LockResolver {
  import opened Sorting
  import opened NodeIds
  import opened LockGraph

  // ----- the termination measure

  /** A step forward is a newly active name or a newly active extra of a name. */
  datatype Node = NameNode(n: string) | ExtraNode(n: string, e: string)

  function OptionalKeys(p: Package): set<string> {
    if Optional(p).Some? then Optional(p).value.Keys else {}
  }

  ghost function Universe(packages: map<string, Package>): set<Node> {
    (set n | n in packages :: NameNode(n))
    + (set n, e | n in packages && e in OptionalKeys(packages[n]) :: ExtraNode(n, e))
  }

  ghost function Done(active: Activation): set<Node> {
    (set n | n in active :: NameNode(n)) + (set n, e | n in active && e in active[n] :: ExtraNode(n, e))
  }

  lemma DoneWithin(packages: map<string, Package>, selected: map<string, seq<Value>>, active: Activation)
    requires Expanded(packages, selected, active)
    ensures Done(active) <= Universe(packages)
  {
    forall n, e | n in active && e in active[n] ensures e in OptionalKeys(packages[n]) {
      ExpandMeans(packages[n], active[n]);
      assert ExtraItems(packages[n], e).Some?;
    }
  }

  /** Activating a request that is not covered yet makes a node done for good. */
  lemma ActivationProgress(packages: map<string, Package>, before: Activation, r: Request, after: Activation)
    requires !Covered(before, r)
    requires after == before[r.name := Prior(before, r.name) + r.extras]
    requires Done(after) <= Universe(packages)
    ensures |Universe(packages) - Done(after)| < |Universe(packages) - Done(before)|
  {
    var node := NewNode(before, r);
    assert node in Done(after) && node !in Done(before);
    assert Done(before) <= Done(after);
    SmallerRemainder(Universe(packages), Done(before), Done(after), node);
  }

  lemma NewNode(before: Activation, r: Request) returns (node: Node)
    requires !Covered(before, r)
    ensures node !in Done(before)
    ensures node in Done(before[r.name := Prior(before, r.name) + r.extras])
  {
    if r.name !in before {
      node := NameNode(r.name);
    } else {
      var e :| e in r.extras && e !in before[r.name];
      node := ExtraNode(r.name, e);
    }
  }

  lemma SmallerRemainder(all: set<Node>, a: set<Node>, b: set<Node>, x: Node)
    requires a <= b <= all && x in b && x !in a
    ensures |all - b| < |all - a|
  {
    assert all - b < all - a by {
      assert x in all - a && x !in all - b;
    }
    ProperSubsetSmaller(all - b, all - a);
  }

  lemma ProperSubsetSmaller(a: set<Node>, b: set<Node>)
    requires a < b
    ensures |a| < |b|
  {
    assert b == a + (b - a);
  }

  // ----- the loop invariant

  function Prior(active: Activation, n: string): set<string> {
    if n in active then active[n] else {}
  }

  /** Every selected package stands with its expansion under its active extras. */
  ghost predicate Expanded(packages: map<string, Package>, selected: map<string, seq<Value>>, active: Activation) {
    && selected.Keys == active.Keys <= packages.Keys
    && forall n :: n in selected ==>
      Expand(packages[n], active[n]) == Some(selected[n]) && ReadAll(selected[n]).Some?
  }

  /** Nothing asked for is forgotten: it waits or it is covered. */
  ghost predicate Waiting(packages: map<string, Package>, roots: seq<Value>, pending: seq<Request>,
                          active: Activation) {
    && (forall r :: AskedByRoots(roots, r) ==> r in pending || Covered(active, r))
    && (forall n, r :: n in active && Asks(packages, Request(n, active[n]), r) ==> r in pending || Covered(active, r))
  }

  ghost predicate AllReachable(packages: map<string, Package>, roots: seq<Value>, pending: seq<Request>) {
    forall r :: r in pending ==> Reachable(packages, roots, r)
  }

  lemma JustifiedGrows(packages: map<string, Package>, roots: seq<Value>, active: Activation, r: Request)
    requires Justified(packages, roots, active) && Reachable(packages, roots, r)
    ensures Justified(packages, roots, active[r.name := Prior(active, r.name) + r.extras])
  {
    var after := active[r.name := Prior(active, r.name) + r.extras];
    assert ReachesName(packages, roots, r.name);
    forall n, e | n in after && e in after[n] ensures ReachesExtra(packages, roots, n, e) {
      if n == r.name && e in r.extras {
        assert ReachesExtra(packages, roots, n, e);
      } else {
        assert n in active && e in active[n];
      }
    }
  }

  /** What the freshly expanded package asks is what its list reads as. */
  lemma AsksAreRead(packages: map<string, Package>, n: string, extras: set<string>, r: Request)
    requires n in packages && Expand(packages[n], extras).Some?
    requires ReadAll(Expand(packages[n], extras).value).Some?
    ensures Asks(packages, Request(n, extras), r) <==> r in ReadAll(Expand(packages[n], extras).value).value
  {
    ExpandMeans(packages[n], extras);
    ReadAllMeans(Expand(packages[n], extras).value);
  }

  lemma ReadIsReachable(packages: map<string, Package>, roots: seq<Value>, active: Activation, n: string,
                        more: seq<Request>)
    requires Justified(packages, roots, active) && n in active && n in packages
    requires Expand(packages[n], active[n]).Some?
    requires ReadAll(Expand(packages[n], active[n]).value) == Some(more)
    ensures AllReachable(packages, roots, more)
  {
    forall r | r in more ensures Reachable(packages, roots, r) {
      AsksAreRead(packages, n, active[n], r);
      JustifiedAsk(packages, roots, active, n, r);
    }
  }

  lemma WaitingSkips(packages: map<string, Package>, roots: seq<Value>, pending: seq<Request>,
                     active: Activation, r: Request)
    requires Waiting(packages, roots, pending + [r], active) && Covered(active, r)
    ensures Waiting(packages, roots, pending, active)
  {
    forall q | q in pending + [r] && q !in pending ensures q == r {
    }
  }

  lemma WaitingGrows(packages: map<string, Package>, roots: seq<Value>, pending: seq<Request>, before: Activation,
                     r: Request, after: Activation, more: seq<Request>)
    requires Waiting(packages, roots, pending + [r], before)
    requires after == before[r.name := Prior(before, r.name) + r.extras]
    requires r.name in packages && Expand(packages[r.name], after[r.name]).Some?
    requires ReadAll(Expand(packages[r.name], after[r.name]).value) == Some(more)
    ensures Waiting(packages, roots, pending + more, after)
  {
    forall q | q in pending + [r] || Covered(before, q) ensures q in pending + more || Covered(after, q) {
      if q in pending + [r] && q !in pending {
        assert q == r;
      }
    }
    forall n, q | n in after && Asks(packages, Request(n, after[n]), q)
      ensures q in pending + more || Covered(after, q)
    {
      if n == r.name {
        AsksAreRead(packages, n, after[n], q);
      } else {
        assert Asks(packages, Request(n, before[n]), q);
      }
    }
  }

  // ----- faults

  lemma MissingPackage(packages: map<string, Package>, roots: seq<Value>, r: Request)
    requires Reachable(packages, roots, r) && r.name !in packages
    ensures Fault(packages, roots)
  {
    assert FaultyRequest(packages, r);
  }

  lemma BadExpansion(packages: map<string, Package>, roots: seq<Value>, active: Activation, n: string)
    requires Justified(packages, roots, active) && n in active && n in packages
    requires Expand(packages[n], active[n]).None?
    ensures Fault(packages, roots)
  {
    ExpandMeans(packages[n], active[n]);
    assert ReachesName(packages, roots, n);
    var r :| Reachable(packages, roots, r) && r.name == n;
    if Base(packages[n]).Some? && Optional(packages[n]).Some? {
      var e :| e in active[n] && ExtraItems(packages[n], e).None?;
      assert ReachesExtra(packages, roots, n, e);
      r :| Reachable(packages, roots, r) && r.name == n && e in r.extras;
    }
    assert FaultyRequest(packages, r);
  }

  lemma BadEntry(packages: map<string, Package>, roots: seq<Value>, active: Activation, n: string)
    requires Justified(packages, roots, active) && n in active && n in packages
    requires Expand(packages[n], active[n]).Some? && ReadAll(Expand(packages[n], active[n]).value).None?
    ensures Fault(packages, roots)
  {
    ExpandMeans(packages[n], active[n]);
    ReadAllMeans(Expand(packages[n], active[n]).value);
    var item :| item in Expand(packages[n], active[n]).value && ReadRequest(item) == Malformed;
    var r := JustifiedItem(packages, roots, active, n, item);
    assert FaultyRequest(packages, r);
  }

  lemma NoFaultLeft(packages: map<string, Package>, roots: seq<Value>, selected: map<string, seq<Value>>,
                    active: Activation)
    requires ReadAll(roots).Some?
    requires Expanded(packages, selected, active) && ExactlyReachable(packages, roots, active)
    ensures !Fault(packages, roots)
  {
    ReadAllMeans(roots);
    forall r | Reachable(packages, roots, r) ensures !FaultyRequest(packages, r) {
      ReachableIsCovered(packages, roots, active, r);
      CoveredIsSound(packages, selected, active, r);
    }
  }

  lemma CoveredIsSound(packages: map<string, Package>, selected: map<string, seq<Value>>, active: Activation,
                       r: Request)
    requires Expanded(packages, selected, active) && Covered(active, r)
    ensures !FaultyRequest(packages, r)
  {
    var p, all := packages[r.name], active[r.name];
    ExpandMeans(p, all);
    ReadAllMeans(selected[r.name]);
    forall item | Lists(p, r.extras, item) ensures ReadRequest(item) != Malformed {
      assert Lists(p, all, item);
    }
  }

  // ----- the procedure

  /** The list of a package under its extras: base, then each extra in sorted order. */
  method ExpandPackage(p: Package, extras: set<string>) returns (r: Option<seq<Value>>)
    ensures r == Expand(p, extras)
  {
    var base := Base(p);
    if base.None? || Optional(p).None? {
      ExpandMeans(p, extras);
      return None;
    }
    var sorted := SortedMembers(extras);
    var expanded := base.value;
    for k := 0 to |sorted|
      invariant ExpandOver(p, sorted[..k]) == Some(expanded)
    {
      assert sorted[..k + 1][..k] == sorted[..k];
      var items := ExtraItems(p, sorted[k]);
      if items.None? {
        ExpandMeans(p, extras);
        assert sorted[k] in extras;
        return None;
      }
      expanded := expanded + items.value;
    }
    WholePrefix(sorted);
    return Some(expanded);
  }

  /** The loop invariant as a whole. */
  ghost predicate Underway(packages: map<string, Package>, roots: seq<Value>, pending: seq<Request>,
                           selected: map<string, seq<Value>>, active: Activation) {
    && AllReachable(packages, roots, pending) && Justified(packages, roots, active)
    && Expanded(packages, selected, active)
    && Waiting(packages, roots, pending, active)
  }

  /** Activate a request that is not covered yet: the new expansion and what it asks for. */
  method Activate(packages: map<string, Package>, ghost roots: seq<Value>, pending: seq<Request>,
                  selected: map<string, seq<Value>>, active: Activation, request: Request)
    returns (r: Option<(seq<Request>, Resolution)>)
    requires Underway(packages, roots, pending + [request], selected, active)
    requires !Covered(active, request)
    ensures r.None? ==> Fault(packages, roots)
    ensures r.Some? ==>
      Underway(packages, roots, pending + r.value.0, r.value.1.selected, r.value.1.active)
    ensures r.Some? ==>
      |Universe(packages) - Done(r.value.1.active)| < |Universe(packages) - Done(active)|
  {
    var name := request.name;
    assert request in pending + [request];
    JustifiedGrows(packages, roots, active, request);
    var activated := active[name := Prior(active, name) + request.extras];
    if name !in packages {
      MissingPackage(packages, roots, request);
      return None;
    }
    var expanded := ExpandPackage(packages[name], activated[name]);
    if expanded.None? {
      BadExpansion(packages, roots, activated, name);
      return None;
    }
    var more := ReadAll(expanded.value);
    if more.None? {
      BadEntry(packages, roots, activated, name);
      return None;
    }
    ReadIsReachable(packages, roots, activated, name, more.value);
    WaitingGrows(packages, roots, pending, active, request, activated, more.value);
    ExpandedGrows(packages, selected, active, name, expanded.value, activated);
    DoneWithin(packages, selected[name := expanded.value], activated);
    ActivationProgress(packages, active, request, activated);
    ReachableJoin(packages, roots, pending, request, more.value);
    return Some((more.value, Resolution(selected[name := expanded.value], activated)));
  }

  lemma ExpandedGrows(packages: map<string, Package>, selected: map<string, seq<Value>>, active: Activation,
                      n: string, items: seq<Value>, after: Activation)
    requires Expanded(packages, selected, active) && n in packages
    requires n in after && after == active[n := after[n]]
    requires Expand(packages[n], after[n]) == Some(items) && ReadAll(items).Some?
    ensures Expanded(packages, selected[n := items], after)
  {
  }

  lemma ReachableJoin(packages: map<string, Package>, roots: seq<Value>, pending: seq<Request>, request: Request,
                      more: seq<Request>)
    requires AllReachable(packages, roots, pending + [request]) && AllReachable(packages, roots, more)
    ensures AllReachable(packages, roots, pending + more)
  {
    forall r | r in pending + more ensures Reachable(packages, roots, r) {
      assert r in pending ==> r in pending + [request];
    }
  }

  lemma SkipIsUnderway(packages: map<string, Package>, roots: seq<Value>, pending: seq<Request>,
                       selected: map<string, seq<Value>>, active: Activation, r: Request)
    requires Underway(packages, roots, pending + [r], selected, active) && Covered(active, r)
    ensures Underway(packages, roots, pending, selected, active)
  {
    WaitingSkips(packages, roots, pending, active, r);
    assert forall q :: q in pending ==> q in pending + [r];
  }

  lemma StartIsUnderway(packages: map<string, Package>, roots: seq<Value>, pending: seq<Request>)
    requires ReadAll(roots) == Some(pending)
    ensures Underway(packages, roots, pending, map[], map[])
  {
    ReadAllMeans(roots);
    forall q | q in pending ensures Reachable(packages, roots, q) {
      RootIsReachable(packages, roots, q);
    }
  }

  /**
   The resolver. It fails exactly when something reachable is missing or malformed;
   otherwise it returns the reachable packages with the extras reachable requests give
   them, and each stored list is the expansion under the final extras.
   */
  method ResolveRuntimeGraph(packages: map<string, Package>, roots: seq<Value>) returns (r: Option<Resolution>)
    ensures r.Some? <==> !Fault(packages, roots)
    ensures r.Some? ==> Resolved(packages, roots, r.value)
  {
    var first := ReadAll(roots);
    if first.None? {
      ReadAllMeans(roots);
      return None;
    }
    var pending, state := first.value, Resolution(map[], map[]);
    StartIsUnderway(packages, roots, pending);
    while pending != []
      invariant Underway(packages, roots, pending, state.selected, state.active)
      decreases |Universe(packages) - Done(state.active)|, |pending|
    {
      var request, rest := pending[|pending| - 1], pending[..|pending| - 1];
      SplitLast(pending);
      if request.name in state.selected && request.extras <= state.active[request.name] {
        SkipIsUnderway(packages, roots, rest, state.selected, state.active, request);
        pending := rest;
        continue;
      }
      var step := Activate(packages, roots, rest, state.selected, state.active, request);
      if step.None? {
        return None;
      }
      pending, state := rest + step.value.0, step.value.1;
    }
    ClosedAndJustified(packages, roots, state.active);
    NoFaultLeft(packages, roots, state.selected, state.active);
    return Some(state);
  }

  // ----- order independence

  ghost predicate SameEntries(a: Option<seq<Value>>, b: Option<seq<Value>>) {
    a.None? == b.None? && (a.Some? ==> multiset(a.value) == multiset(b.value))
  }

  /** q is p with its dependency lists rearranged. */
  ghost predicate Rearranged(p: Package, q: Package) {
    && SameEntries(Base(p), Base(q))
    && Optional(p).None? == Optional(q).None?
    && forall e :: SameEntries(ExtraItems(p, e), ExtraItems(q, e))
  }

  ghost predicate SameUpToOrder(packages: map<string, Package>, roots: seq<Value>,
                                packages': map<string, Package>, roots': seq<Value>) {
    && packages.Keys == packages'.Keys
    && (forall n :: n in packages ==> Rearranged(packages[n], packages'[n]))
    && multiset(roots) == multiset(roots')
  }

  lemma SameEntriesMembers(a: Option<seq<Value>>, b: Option<seq<Value>>, item: Value)
    requires SameEntries(a, b) && a.Some?
    ensures item in a.value <==> item in b.value
  {
    SameElements(a.value, b.value);
  }

  lemma RearrangedLists(p: Package, q: Package, extras: set<string>, item: Value)
    requires Rearranged(p, q) && Lists(p, extras, item)
    ensures Lists(q, extras, item)
  {
    if Base(p).Some? && item in Base(p).value {
      SameEntriesMembers(Base(p), Base(q), item);
    } else {
      var e :| e in extras && ExtraItems(p, e).Some? && item in ExtraItems(p, e).value;
      SameEntriesMembers(ExtraItems(p, e), ExtraItems(q, e), item);
    }
  }

  lemma SymmetricUpToOrder(packages: map<string, Package>, roots: seq<Value>,
                           packages': map<string, Package>, roots': seq<Value>)
    requires SameUpToOrder(packages, roots, packages', roots')
    ensures SameUpToOrder(packages', roots', packages, roots)
  {
    forall n | n in packages' ensures Rearranged(packages'[n], packages[n]) {
      assert Rearranged(packages[n], packages'[n]);
      forall e ensures SameEntries(ExtraItems(packages'[n], e), ExtraItems(packages[n], e)) {
        assert SameEntries(ExtraItems(packages[n], e), ExtraItems(packages'[n], e));
      }
    }
  }

  lemma ReachableUpToOrder(packages: map<string, Package>, roots: seq<Value>,
                           packages': map<string, Package>, roots': seq<Value>, r: Request)
    requires SameUpToOrder(packages, roots, packages', roots')
    requires Reachable(packages, roots, r)
    ensures Reachable(packages', roots', r)
  {
    var path :| Chain(packages, roots, path) && path[|path| - 1] == r;
    SameElements(roots, roots');
    forall i | 0 <= i < |path| - 1 ensures Asks(packages', path[i], path[i + 1]) {
      var q, t := path[i], path[i + 1];
      assert Asks(packages, q, t);
      var item :| Lists(packages[q.name], q.extras, item) && ReadRequest(item) == Wanted(t);
      RearrangedLists(packages[q.name], packages'[q.name], q.extras, item);
    }
    assert Chain(packages', roots', path);
  }

  lemma FaultUpToOrder(packages: map<string, Package>, roots: seq<Value>,
                       packages': map<string, Package>, roots': seq<Value>)
    requires SameUpToOrder(packages, roots, packages', roots')
    requires Fault(packages, roots)
    ensures Fault(packages', roots')
  {
    SameElements(roots, roots');
    if r :| Reachable(packages, roots, r) && FaultyRequest(packages, r) {
      ReachableUpToOrder(packages, roots, packages', roots', r);
      FaultyUpToOrder(packages, packages', r);
    }
  }

  lemma FaultyUpToOrder(packages: map<string, Package>, packages': map<string, Package>, r: Request)
    requires packages.Keys == packages'.Keys
    requires forall n :: n in packages ==> Rearranged(packages[n], packages'[n])
    requires FaultyRequest(packages, r)
    ensures FaultyRequest(packages', r)
  {
    if r.name in packages {
      var p, q := packages[r.name], packages'[r.name];
      assert Rearranged(p, q);
      if !Offers(p, r.extras) {
        if Base(p).Some? && Optional(p).Some? {
          var e :| e in r.extras && ExtraItems(p, e).None?;
          assert SameEntries(ExtraItems(p, e), ExtraItems(q, e));
        }
      } else {
        var item :| Lists(p, r.extras, item) && ReadRequest(item) == Malformed;
        RearrangedLists(p, q, r.extras, item);
      }
    }
  }

  /** Rearranging the roots or any dependency list does not change whether resolution fails. */
  lemma FaultIgnoresOrder(packages: map<string, Package>, roots: seq<Value>,
                          packages': map<string, Package>, roots': seq<Value>)
    requires SameUpToOrder(packages, roots, packages', roots')
    ensures Fault(packages, roots) <==> Fault(packages', roots')
  {
    SymmetricUpToOrder(packages, roots, packages', roots');
    if Fault(packages, roots) {
      FaultUpToOrder(packages, roots, packages', roots');
    }
    if Fault(packages', roots') {
      FaultUpToOrder(packages', roots', packages, roots);
    }
  }

  /** Nor does it change the selected names or their activated extras. */
  lemma ResolutionIgnoresOrder(packages: map<string, Package>, roots: seq<Value>,
                               packages': map<string, Package>, roots': seq<Value>, s: Resolution, s': Resolution)
    requires SameUpToOrder(packages, roots, packages', roots')
    requires Resolved(packages, roots, s) && Resolved(packages', roots', s')
    ensures s.active == s'.active && s.selected.Keys == s'.selected.Keys
  {
    SymmetricUpToOrder(packages, roots, packages', roots');
    ExactWithin(packages, roots, packages', roots', s.active, s'.active);
    ExactWithin(packages', roots', packages, roots, s'.active, s.active);
    MutuallyWithin(s.active, s'.active);
  }

  lemma MutuallyWithin(a: Activation, b: Activation)
    requires Within(a, b) && Within(b, a)
    ensures a == b
  {
    assert a.Keys == b.Keys;
    forall n | n in a ensures a[n] == b[n] {
    }
  }

  lemma ExactWithin(packages: map<string, Package>, roots: seq<Value>,
                    packages': map<string, Package>, roots': seq<Value>, a: Activation, b: Activation)
    requires SameUpToOrder(packages, roots, packages', roots')
    requires ExactlyReachable(packages, roots, a) && ExactlyReachable(packages', roots', b)
    ensures Within(a, b)
  {
    forall n | n in a ensures n in b && a[n] <= b[n] {
      assert ReachesName(packages, roots, n);
      var r :| Reachable(packages, roots, r) && r.name == n;
      ReachableUpToOrder(packages, roots, packages', roots', r);
      ReachableIsCovered(packages', roots', b, r);
      forall e | e in a[n] ensures e in b[n] {
        assert ReachesExtra(packages, roots, n, e);
        var q :| Reachable(packages, roots, q) && q.name == n && e in q.extras;
        ReachableUpToOrder(packages, roots, packages', roots', q);
        ReachableIsCovered(packages', roots', b, q);
      }
    }
  }
}
