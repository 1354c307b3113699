/** Worklist search for benchmark candidates over the published package graph. */
module CandidateSearch {
  import opened Collections
  import opened Optional
  import Sorting

  type Name = string
  type Version = string

  datatype Manifest = Manifest(
    dependencies: seq<Name>, optionalDependencies: seq<Name>, peerDependencies: seq<Name>, optionalPeers: set<Name>)

  datatype Registry = Registry(index: map<Name, map<Version, Manifest>>, versions: map<Name, Version>)

  const CORDIS := "@deepseek-ai/cordis"

  /** The workspace's own version of a package, if the registry has it. */
  function ManifestOf(r: Registry, name: Name): Option<Manifest> {
    if name in r.versions && name in r.index && r.versions[name] in r.index[name]
    then Some(r.index[name][r.versions[name]]) else None
  }

  lemma ManifestIff(r: Registry, name: Name, m: Manifest)
    ensures ManifestOf(r, name) == Some(m) <==>
              && name in r.versions && name in r.index && r.versions[name] in r.index[name]
              && m == r.index[name][r.versions[name]]
  {
  }

  predicate Indexed(r: Registry, name: Name) {
    ManifestOf(r, name).Some?
  }

  /** What installing a package pulls in: dependencies, optional ones, and peers that are not optional. */
  predicate Installs(m: Manifest, dependency: Name) {
    || dependency in m.dependencies || dependency in m.optionalDependencies
    || (dependency in m.peerDependencies && dependency !in m.optionalPeers)
  }

  function Unique(names: seq<Name>): (r: seq<Name>)
    ensures (forall n :: n in r <==> n in names) && Sorting.Distinct(r)
  {
    if names == [] then []
    else
      var rest := Unique(names[1..]);
      assert forall n :: n in names <==> n == names[0] || n in names[1..];
      if names[0] in rest then rest else [names[0]] + rest
  }

  /** The keys of the merged dependency record, sorted. */
  function InstalledNames(m: Manifest, unitOrder: (Name, Name) -> bool): seq<Name> {
    Sorting.SortBy(MergedKeys(m), unitOrder)
  }

  function MergedKeys(m: Manifest): seq<Name> {
    Unique(m.dependencies + m.optionalDependencies + Filter(m.peerDependencies, p => p !in m.optionalPeers))
  }

  lemma SortedMembers(names: seq<Name>, unitOrder: (Name, Name) -> bool)
    ensures forall n :: n in Sorting.SortBy(names, unitOrder) <==> n in names
  {
    var sorted := Sorting.SortBy(names, unitOrder);
    Sorting.SortPermutes(names, unitOrder);
    forall n ensures n in sorted <==> n in names {
      assert n in sorted <==> n in multiset(sorted);
      assert n in names <==> n in multiset(names);
    }
  }

  lemma InstalledNamesAre(m: Manifest, unitOrder: (Name, Name) -> bool)
    ensures forall n :: n in InstalledNames(m, unitOrder) <==> Installs(m, n)
    ensures forall n :: Installs(m, n) <==>
              n in m.dependencies || n in m.optionalDependencies || (n in m.peerDependencies && n !in m.optionalPeers)
  {
    SortedMembers(MergedKeys(m), unitOrder);
  }

  // ----- reachability

  /** A path of indexed packages, each installing the next. */
  ghost predicate IsPath(r: Registry, path: seq<Name>) {
    && path != [] && (forall i | 0 <= i < |path| :: Indexed(r, path[i]))
    && forall i | 0 < i < |path| :: Installs(ManifestOf(r, path[i - 1]).value, path[i])
  }

  ghost predicate Reachable(r: Registry, target: Name, name: Name) {
    exists path :: IsPath(r, path) && path[0] == target && path[|path| - 1] == name
  }

  lemma PathExtends(r: Registry, target: Name, from: Name, name: Name)
    requires Reachable(r, target, from) && Installs(ManifestOf(r, from).value, name) && Indexed(r, name)
    ensures Reachable(r, target, name)
  {
    var path :| IsPath(r, path) && path[0] == target && path[|path| - 1] == from;
    var longer := path + [name];
    forall i | 0 < i < |longer| ensures Installs(ManifestOf(r, longer[i - 1]).value, longer[i]) {
      if i < |path| { assert longer[i - 1] == path[i - 1] && longer[i] == path[i]; }
    }
    assert IsPath(r, longer);
  }

  lemma ReachableIsIndexed(r: Registry, target: Name, name: Name)
    requires Reachable(r, target, name)
    ensures Indexed(r, name)
  {
    var path :| IsPath(r, path) && path[0] == target && path[|path| - 1] == name;
  }

  lemma TargetReachable(r: Registry, target: Name)
    requires Indexed(r, target)
    ensures Reachable(r, target, target)
  {
    assert IsPath(r, [target]);
  }

  /** A set that holds the target and every indexed package its members install holds all that is reachable. */
  lemma {:induction false} ClosedHoldsReachable(r: Registry, reached: set<Name>, path: seq<Name>)
    requires IsPath(r, path) && path[0] in reached
    requires forall n, d | n in reached && Indexed(r, n) && Indexed(r, d) && Installs(ManifestOf(r, n).value, d) :: d in reached
    ensures path[|path| - 1] in reached
  {
    if |path| > 1 {
      var k := |path| - 1;
      ClosedHoldsReachable(r, reached, path[..k]);
      assert Installs(ManifestOf(r, path[k - 1]).value, path[k]);
    }
  }

  // ----- the search

  ghost predicate Pending(queue: seq<Name>, cursor: nat, name: Name) {
    exists i :: cursor <= i < |queue| && queue[i] == name
  }

  /** Reached packages are reachable, queued ones are the target or installed by a reached package,
      and every indexed package that a reached one installs is reached or still queued. */
  ghost predicate SearchInv(r: Registry, target: Name, queue: seq<Name>, cursor: nat, reached: set<Name>) {
    && cursor <= |queue|
    && (forall n | n in reached :: Indexed(r, n) && Reachable(r, target, n))
    && (forall q | q in queue :: Justified(r, target, reached, q))
    && (Indexed(r, target) ==> target in reached || Pending(queue, cursor, target))
    && (forall n, d | n in reached && Indexed(r, d) && Installs(ManifestOf(r, n).value, d) ::
          d in reached || Pending(queue, cursor, d))
  }

  ghost predicate Justified(r: Registry, target: Name, reached: set<Name>, q: Name) {
    q == target || exists n | n in reached :: Indexed(r, n) && Installs(ManifestOf(r, n).value, q)
  }

  method Reach(r: Registry, target: Name, unitOrder: (Name, Name) -> bool) returns (reached: set<Name>)
    ensures forall n :: n in reached <==> Reachable(r, target, n)
  {
    reached := {};
    var queue, cursor := [target], 0;
    StartKeepsInv(r, target);
    hide SearchInv, InstalledNames, Reachable;
    while cursor < |queue|
      invariant cursor <= |queue| && SearchInv(r, target, queue, cursor, reached)
      decreases r.versions.Keys - reached, |queue| - cursor
    {
      var name := queue[cursor];
      var manifest := ManifestOf(r, name);
      if name in reached || manifest.None? {
        SkipKeepsInv(r, target, queue, cursor, reached);
      } else {
        var names := InstalledNames(manifest.value, unitOrder);
        InstalledNamesAre(manifest.value, unitOrder);
        ghost var before := queue;
        VisitReachable(r, target, queue, cursor, reached);
        queue := Enqueue(queue, names, reached + {name});
        VisitKeepsInv(r, target, before, queue, cursor, reached, name);
        reached := reached + {name};
      }
      cursor := cursor + 1;
    }
    SearchIsComplete(r, target, queue, reached);
  }

  lemma StartKeepsInv(r: Registry, target: Name)
    ensures SearchInv(r, target, [target], 0, {})
  {
    assert [target][0] == target;
  }

  /** With nothing queued any more, the reached packages are exactly the reachable ones. */
  lemma SearchIsComplete(r: Registry, target: Name, queue: seq<Name>, reached: set<Name>)
    requires SearchInv(r, target, queue, |queue|, reached)
    ensures forall n :: n in reached <==> Reachable(r, target, n)
  {
    forall n ensures n in reached <==> Reachable(r, target, n) {
      if Reachable(r, target, n) {
        var path :| IsPath(r, path) && path[0] == target && path[|path| - 1] == n;
        ClosedHoldsReachable(r, reached, path);
      }
    }
  }

  /** Pushes the names that are not reached yet. */
  method Enqueue(queue: seq<Name>, names: seq<Name>, reached: set<Name>) returns (longer: seq<Name>)
    ensures queue <= longer
    ensures forall i | |queue| <= i < |longer| :: longer[i] in names && longer[i] !in reached
    ensures forall n | n in names && n !in reached :: Pending(longer, |queue|, n)
  {
    longer := queue;
    for k := 0 to |names|
      invariant queue <= longer
      invariant forall i | |queue| <= i < |longer| :: longer[i] in names && longer[i] !in reached
      invariant forall j | 0 <= j < k && names[j] !in reached :: Pending(longer, |queue|, names[j])
    {
      ghost var before := longer;
      if names[k] !in reached { longer := longer + [names[k]]; }
      forall j | 0 <= j < k + 1 && names[j] !in reached ensures Pending(longer, |queue|, names[j]) {
        if j < k {
          var i :| |queue| <= i < |before| && before[i] == names[j];
          assert longer[i] == names[j];
        } else {
          assert longer[|longer| - 1] == names[k];
        }
      }
    }
  }

  lemma SkipKeepsInv(r: Registry, target: Name, queue: seq<Name>, cursor: nat, reached: set<Name>)
    requires SearchInv(r, target, queue, cursor, reached) && cursor < |queue|
    requires queue[cursor] in reached || !Indexed(r, queue[cursor])
    ensures SearchInv(r, target, queue, cursor + 1, reached)
  {
    forall d | Pending(queue, cursor, d) && Indexed(r, d) && d !in reached ensures Pending(queue, cursor + 1, d) {
      var i :| cursor <= i < |queue| && queue[i] == d;
    }
  }

  lemma VisitReachable(r: Registry, target: Name, queue: seq<Name>, cursor: nat, reached: set<Name>)
    requires SearchInv(r, target, queue, cursor, reached) && cursor < |queue| && Indexed(r, queue[cursor])
    ensures Reachable(r, target, queue[cursor])
  {
    var name := queue[cursor];
    assert Justified(r, target, reached, name);
    if name == target {
      TargetReachable(r, target);
    } else {
      var n :| n in reached && Indexed(r, n) && Installs(ManifestOf(r, n).value, name);
      PathExtends(r, target, n, name);
    }
  }

  lemma VisitKeepsInv(r: Registry, target: Name, queue: seq<Name>, longer: seq<Name>, cursor: nat, reached: set<Name>, name: Name)
    requires SearchInv(r, target, queue, cursor, reached) && cursor < |queue| && name == queue[cursor]
    requires Indexed(r, name) && Reachable(r, target, name)
    requires queue <= longer && forall i | |queue| <= i < |longer| :: Installs(ManifestOf(r, name).value, longer[i])
    requires forall d | Installs(ManifestOf(r, name).value, d) && d !in reached + {name} :: Pending(longer, |queue|, d)
    ensures SearchInv(r, target, longer, cursor + 1, reached + {name})
  {
    var more := reached + {name};
    forall d | Pending(queue, cursor, d) && d !in more ensures Pending(longer, cursor + 1, d) {
      var i :| cursor <= i < |queue| && queue[i] == d;
      assert longer[i] == d;
    }
    forall d | Pending(longer, |queue|, d) ensures Pending(longer, cursor + 1, d) {
      var i :| |queue| <= i < |longer| && longer[i] == d;
    }
    forall q | q in longer ensures Justified(r, target, more, q) {
      var i :| 0 <= i < |longer| && longer[i] == q;
      if i < |queue| {
        assert q == queue[i];
        assert Justified(r, target, reached, q);
      } else {
        assert name in more;
      }
    }
  }

  // ----- the candidates

  datatype Release = Release(policyPackages: set<Name>, releasePackages: set<Name>)

  /** A release package without a policy whose published manifest still has a peer other than Cordis. */
  predicate Candidate(r: Registry, release: Release, name: Name) {
    && name !in release.policyPackages && name in release.releasePackages
    && ManifestOf(r, name).Some?
    && exists peer | peer in ManifestOf(r, name).value.peerDependencies :: peer != CORDIS
  }

  /** Lists every reachable candidate exactly once. */
  method DiscoverBenchmarkCandidates(r: Registry, target: Name, release: Release, unitOrder: (Name, Name) -> bool)
      returns (names: seq<Name>)
    ensures forall n :: n in names <==>
              && Reachable(r, target, n) && n !in release.policyPackages && n in release.releasePackages
              && exists peer :: peer != "@deepseek-ai/cordis" && peer in ManifestOf(r, n).value.peerDependencies
    ensures Sorting.Distinct(names)
    ensures Sorting.TotalOrder(unitOrder) ==> Sorting.Ordered(names, unitOrder)
  {
    var reached := Reach(r, target, unitOrder);
    var found, todo := [], reached;
    while todo != {}
      invariant todo <= reached && Sorting.Distinct(found)
      invariant forall n :: n in found <==> n in reached - todo && Candidate(r, release, n)
    {
      var n :| n in todo;
      if Candidate(r, release, n) { found := found + [n]; }
      todo := todo - {n};
    }
    names := Sorting.SortBy(found, unitOrder);
    SortedMembers(found, unitOrder);
    Sorting.SortPermutes(found, unitOrder);
    Sorting.DistinctPermutation(found, names);
    if Sorting.TotalOrder(unitOrder) { Sorting.SortOrders(found, unitOrder, unitOrder); }
    forall n | Reachable(r, target, n) ensures Indexed(r, n) { ReachableIsIndexed(r, target, n); }
  }
}
