/** Staging a package with its transitive production dependencies: a breadth-first closure. */
module PackageStaging {
  import opened Wrappers
  import opened Paths
  import AssetStaging

  type Name = string
  type Dir = string

  datatype Package = Package(name: Name, dir: Dir)

  /**
   * What the loop reads from disk: the dependency names of every readable `package.json`, and the
   * two places a dependency is looked up in, first from its dependent and then from the app.
   */
  datatype Disk = Disk(manifests: map<Dir, seq<Name>>, nested: map<(Name, Dir), Dir>, app: map<Name, Dir>) {
    function Resolve(name: Name, dependent: Dir): Option<Dir> {
      if (name, dependent) in nested then Some(nested[(name, dependent)])
      else if name in app then Some(app[name])
      else None
    }

    /** Names declared anywhere: the loop cannot see more than these and the root. */
    ghost function Declared(): set<Name> {
      set dir, name | dir in manifests && name in manifests[dir] :: name
    }

    predicate Declares(dir: Dir, name: Name) {
      dir in manifests && name in manifests[dir]
    }
  }

  /** `stageFile(projectDir, dir, "node_modules/<name>", …)` passes the containment check. */
  predicate Stageable(stageDir: string, name: Name) {
    AssetStaging.BackstopAccepts(stageDir, AssetStaging.NODE_MODULES + SLASH + name)
  }

  function Names(packages: seq<Package>): (names: seq<Name>)
    ensures |names| == |packages|
    ensures forall i :: 0 <= i < |packages| ==> names[i] == packages[i].name
  {
    seq(|packages|, i requires 0 <= i < |packages| => packages[i].name)
  }

  predicate Distinct(names: seq<Name>) {
    forall i, j :: 0 <= i < j < |names| ==> names[i] != names[j]
  }

  /** The first of these packages whose manifest declares the name. */
  predicate FirstDeclarer(disk: Disk, packages: seq<Package>, name: Name, k: int) {
    && 0 <= k < |packages|
    && disk.Declares(packages[k].dir, name)
    && forall earlier :: 0 <= earlier < k ==> !disk.Declares(packages[earlier].dir, name)
  }

  predicate QueuedAfter(order: seq<Package>, package: Package, k: int) {
    exists i :: 0 <= i < |order| && k < i && order[i] == package
  }

  /** The outcome for a name looked up from the k-th package: resolved and queued after it, or missing. */
  predicate SettledAt(disk: Disk, order: seq<Package>, missing: seq<Name>, name: Name, k: int)
    requires 0 <= k < |order|
  {
    match disk.Resolve(name, order[k].dir)
    case Some(dir) => QueuedAfter(order, Package(name, dir), k)
    case None => name in missing
  }

  /** The name was settled by the first package, among those visited, that declares it. */
  predicate Settled(disk: Disk, visited: nat, order: seq<Package>, missing: seq<Name>, name: Name)
    requires visited <= |order|
  {
    exists k :: 0 <= k < visited && FirstDeclarer(disk, order, name, k) && SettledAt(disk, order, missing, name, k)
  }

  /** Every dependency of the first `count` packages has been seen. */
  ghost predicate Covered(disk: Disk, order: seq<Package>, seen: set<Name>, count: nat) {
    forall i, name :: 0 <= i < count && i < |order| && disk.Declares(order[i].dir, name) ==> name in seen
  }

  predicate Partition(order: seq<Package>, missing: seq<Name>, seen: set<Name>) {
    && Distinct(Names(order)) && Distinct(missing)
    && (forall name :: name in seen ==> name in Names(order) || name in missing)
    && (forall name :: name in Names(order) ==> name in seen && name !in missing)
    && (forall name :: name in missing ==> name in seen)
  }

  /**
   * The state of the loop after `visited` packages of `order` (those staged, then the queue) were
   * taken from the queue.
   */
  ghost predicate Progress(disk: Disk, root: Package, visited: nat, order: seq<Package>,
                           missing: seq<Name>, seen: set<Name>)
  {
    && visited <= |order| && order != [] && order[0] == root
    && Partition(order, missing, seen)
    && forall name :: name in seen && name != root.name ==> Settled(disk, visited, order, missing, name)
  }

  /** What a completed run leaves: the staged packages in order, and the names it warned about. */
  ghost predicate Closure(disk: Disk, root: Package, staged: seq<Package>, missing: seq<Name>) {
    exists seen ::
      && Progress(disk, root, |staged|, staged, missing, seen)
      && Covered(disk, staged, seen, |staged|)
  }

  lemma SettledStays(disk: Disk, visited: nat, visited': nat, order: seq<Package>, order': seq<Package>,
                     missing: seq<Name>, missing': seq<Name>, name: Name)
    requires visited <= |order| && visited <= visited' <= |order'|
    requires order <= order' && missing <= missing'
    requires Settled(disk, visited, order, missing, name)
    ensures Settled(disk, visited', order', missing', name)
  {
    var k :| 0 <= k < visited && FirstDeclarer(disk, order, name, k) && SettledAt(disk, order, missing, name, k);
    assert FirstDeclarer(disk, order', name, k) && SettledAt(disk, order', missing', name, k);
  }

  /** Looking a new dependency up from the package being visited. */
  lemma SeeDependency(disk: Disk, root: Package, visited: nat, order: seq<Package>, missing: seq<Name>,
                      seen: set<Name>, name: Name, order': seq<Package>, missing': seq<Name>)
    requires Progress(disk, root, visited, order, missing, seen) && visited > 0
    requires Covered(disk, order, seen, visited - 1)
    requires disk.Declares(order[visited - 1].dir, name) && name !in seen
    requires match disk.Resolve(name, order[visited - 1].dir)
             case Some(dir) => order' == order + [Package(name, dir)] && missing' == missing
             case None => order' == order && missing' == missing + [name]
    ensures Progress(disk, root, visited, order', missing', seen + {name})
    ensures Covered(disk, order', seen + {name}, visited - 1)
  {
    hide Partition, Settled;
    SeenOnce(order, missing, seen, Package(name, ""), order', missing');
    forall other | other in seen + {name} && other != root.name
      ensures Settled(disk, visited, order', missing', other)
    {
      if other == name {
        FirstLookup(disk, visited, order, seen, name, order', missing');
      } else {
        SettledStays(disk, visited, visited, order, order', missing, missing', other);
      }
    }
  }

  lemma SeenOnce(order: seq<Package>, missing: seq<Name>, seen: set<Name>, found: Package,
                 order': seq<Package>, missing': seq<Name>)
    requires Partition(order, missing, seen) && found.name !in seen
    requires || (missing' == missing && |order'| == |order| + 1 && order <= order'
                && order'[|order|].name == found.name)
             || (order' == order && missing' == missing + [found.name])
    ensures Partition(order', missing', seen + {found.name})
  {
    var names, names' := Names(order), Names(order');
    if order' == order {
      assert forall i :: 0 <= i < |missing| ==> missing[i] in missing;
    } else {
      assert names' == names + [found.name];
      assert forall i :: 0 <= i < |names| ==> names[i] in names;
    }
  }

  lemma FirstLookup(disk: Disk, visited: nat, order: seq<Package>, seen: set<Name>, name: Name,
                    order': seq<Package>, missing': seq<Name>)
    requires 0 < visited <= |order| && order <= order'
    requires Covered(disk, order, seen, visited - 1)
    requires disk.Declares(order[visited - 1].dir, name) && name !in seen
    requires match disk.Resolve(name, order[visited - 1].dir)
             case Some(dir) => |order'| == |order| + 1 && order'[|order|] == Package(name, dir)
             case None => name in missing'
    ensures Settled(disk, visited, order', missing', name)
  {
    var k := visited - 1;
    assert FirstDeclarer(disk, order', name, k);
    assert SettledAt(disk, order', missing', name, k);
  }

  lemma Visit(disk: Disk, root: Package, visited: nat, order: seq<Package>, missing: seq<Name>, seen: set<Name>)
    requires Progress(disk, root, visited, order, missing, seen) && visited < |order|
    ensures Progress(disk, root, visited + 1, order, missing, seen)
  {
    hide Partition, Settled;
    forall name | name in seen && name != root.name
      ensures Settled(disk, visited + 1, order, missing, name)
    {
      SettledStays(disk, visited, visited + 1, order, order, missing, missing, name);
    }
  }

  lemma PrefixDistinct(order: seq<Package>, count: nat)
    requires Distinct(Names(order)) && count <= |order|
    ensures Distinct(Names(order[..count]))
    ensures count < |order| ==> order[count].name !in Names(order[..count])
  {
    var names, front := Names(order), Names(order[..count]);
    assert forall i :: 0 <= i < count ==> front[i] == names[i];
  }

  lemma TakenOnce(disk: Disk, root: Package, visited: nat, order: seq<Package>, missing: seq<Name>, seen: set<Name>)
    requires Progress(disk, root, visited, order, missing, seen)
    ensures Distinct(Names(order[..visited])) && Distinct(missing)
    ensures visited < |order| ==> order[visited].name !in Names(order[..visited])
  {
    PrefixDistinct(order, visited);
  }

  lemma Cover(disk: Disk, order: seq<Package>, seen: set<Name>, count: nat)
    requires 0 < count <= |order| && Covered(disk, order, seen, count - 1)
    requires forall name :: disk.Declares(order[count - 1].dir, name) ==> name in seen
    ensures Covered(disk, order, seen, count)
  {
  }

  lemma Start(disk: Disk, root: Package)
    ensures Progress(disk, root, 0, [root], [], {root.name}) && Covered(disk, [root], {root.name}, 0)
  {
    assert Names([root]) == [root.name];
  }

  lemma FewerUnseen(universe: set<Name>, seen: set<Name>, name: Name)
    requires name in universe && name !in seen
    ensures |universe - (seen + {name})| < |universe - seen|
  {
    assert universe - seen == universe - (seen + {name}) + {name};
  }

  /** What both loops keep: the staged packages, followed by the queue, are a state of the traversal. */
  ghost predicate Traversal(disk: Disk, root: Package, staged: seq<Package>, queue: seq<Package>,
                            missing: seq<Name>, seen: set<Name>, covered: nat)
  {
    && Progress(disk, root, |staged|, staged + queue, missing, seen)
    && Covered(disk, staged + queue, seen, covered)
    && seen <= disk.Declared() + {root.name}
  }

  ghost function Unseen(disk: Disk, root: Package, seen: set<Name>): nat {
    |disk.Declared() + {root.name} - seen|
  }

  lemma SeeOne(disk: Disk, root: Package, staged: seq<Package>, queue: seq<Package>, missing: seq<Name>,
               seen: set<Name>, dep: Name, queue': seq<Package>, missing': seq<Name>)
    requires staged != [] && Traversal(disk, root, staged, queue, missing, seen, |staged| - 1)
    requires disk.Declares(staged[|staged| - 1].dir, dep) && dep !in seen
    requires match disk.Resolve(dep, staged[|staged| - 1].dir)
             case Some(dir) => queue' == queue + [Package(dep, dir)] && missing' == missing
             case None => queue' == queue && missing' == missing + [dep]
    ensures Traversal(disk, root, staged, queue', missing', seen + {dep}, |staged| - 1)
    ensures Unseen(disk, root, seen + {dep}) + |queue'| <= Unseen(disk, root, seen) + |queue|
  {
    hide Progress, Covered;
    var order := staged + queue;
    assert order[|staged| - 1] == staged[|staged| - 1];
    assert dep in disk.Declared();
    FewerUnseen(disk.Declared() + {root.name}, seen, dep);
    assert |queue'| == |queue| + 1 ==> staged + queue' == order + [queue'[|queue|]];
    SeeDependency(disk, root, |staged|, order, missing, seen, dep, staged + queue', missing');
  }

  /** The inner loop: the dependencies of the package just staged. */
  method LookUpDependencies(disk: Disk, root: Package, staged: seq<Package>, queueBefore: seq<Package>,
                            missingBefore: seq<Name>, seenBefore: set<Name>)
    returns (queue: seq<Package>, missing: seq<Name>, seen: set<Name>)
    requires staged != []
    requires Traversal(disk, root, staged, queueBefore, missingBefore, seenBefore, |staged| - 1)
    ensures Traversal(disk, root, staged, queue, missing, seen, |staged|)
    ensures Unseen(disk, root, seen) + |queue| <= Unseen(disk, root, seenBefore) + |queueBefore|
  {
    hide Progress, Covered, Unseen;
    var package := staged[|staged| - 1];
    queue, missing, seen := queueBefore, missingBefore, seenBefore;
    assert (staged + queue)[|staged| - 1] == package;
    if package.dir !in disk.manifests {
      Cover(disk, staged + queue, seen, |staged|);
      return;
    }
    var deps := disk.manifests[package.dir];
    for i := 0 to |deps|
      invariant Traversal(disk, root, staged, queue, missing, seen, |staged| - 1)
      invariant forall j :: 0 <= j < i ==> deps[j] in seen
      invariant Unseen(disk, root, seen) + |queue| <= Unseen(disk, root, seenBefore) + |queueBefore|
    {
      var dep := deps[i];
      if dep in seen {
        continue;
      }
      ghost var queued, reported, known := queue, missing, seen;
      seen := seen + {dep};
      var found := disk.Resolve(dep, package.dir);
      match found {
        case Some(dir) =>
          queue := queue + [Package(dep, dir)];
        case None =>
          missing := missing + [dep];
      }
      SeeOne(disk, root, staged, queued, reported, known, dep, queue, missing);
    }
    assert (staged + queue)[|staged| - 1] == package;
    Cover(disk, staged + queue, seen, |staged|);
  }

  /**
   * The loop stages each name at most once and ends. `failed` is the name whose destination left
   * the build context, in which case staging stopped there.
   */
  method StagePackageTree(stageDir: string, root: Package, disk: Disk)
    returns (failed: Option<Name>, staged: seq<Package>, missing: seq<Name>)
    ensures forall i :: 0 <= i < |staged| ==> Stageable(stageDir, staged[i].name)
    ensures Distinct(Names(staged)) && Distinct(missing)
    ensures failed.None? ==> Closure(disk, root, staged, missing)
    ensures failed.Some? ==> !Stageable(stageDir, failed.value) && failed.value !in Names(staged)
  {
    hide Stageable, Progress, Covered, Names, Distinct;
    Start(disk, root);
    var queue, seen := [root], {root.name};
    staged, missing, failed := [], [], None;
    assert staged + queue == [root];
    while queue != []
      invariant Traversal(disk, root, staged, queue, missing, seen, |staged|)
      invariant forall i :: 0 <= i < |staged| ==> Stageable(stageDir, staged[i].name)
      decreases Unseen(disk, root, seen) + |queue|
    {
      var package := queue[0];
      ghost var order := staged + queue;
      TakenOnce(disk, root, |staged|, order, missing, seen);
      assert order[..|staged|] == staged && order[|staged|] == package;
      if !Stageable(stageDir, package.name) {
        return Some(package.name), staged, missing;
      }
      Visit(disk, root, |staged|, order, missing, seen);
      queue := queue[1..];
      staged := staged + [package];
      assert staged + queue == order;
      queue, missing, seen := LookUpDependencies(disk, root, staged, queue, missing, seen);
    }
    assert staged + queue == staged && staged[..|staged|] == staged;
    TakenOnce(disk, root, |staged|, staged, missing, seen);
  }

  // ---- What a completed run means -------------------------------------------------------------

  /** A chain of declared dependencies from the root, each resolved from the one before it. */
  ghost predicate Chain(disk: Disk, root: Package, path: seq<Package>, end: Package) {
    && path != [] && path[0] == root && path[|path| - 1] == end
    && forall i :: 0 < i < |path| ==>
         && disk.Declares(path[i - 1].dir, path[i].name)
         && disk.Resolve(path[i].name, path[i - 1].dir) == Some(path[i].dir)
  }

  /** Nothing is staged without a reason. */
  lemma {:induction false} StagedIsReached(disk: Disk, root: Package, staged: seq<Package>, missing: seq<Name>, index: nat)
    requires Closure(disk, root, staged, missing) && index < |staged|
    ensures exists path :: Chain(disk, root, path, staged[index])
    decreases index
  {
    var seen :| Progress(disk, root, |staged|, staged, missing, seen) && Covered(disk, staged, seen, |staged|);
    var package := staged[index];
    assert Names(staged)[index] == package.name && Names(staged)[0] == root.name;
    assert package.name in Names(staged);
    if index == 0 {
      assert Chain(disk, root, [root], package);
    } else {
      assert Names(staged)[0] != Names(staged)[index];
      assert Settled(disk, |staged|, staged, missing, package.name);
      var k :| 0 <= k < |staged| && FirstDeclarer(disk, staged, package.name, k)
            && SettledAt(disk, staged, missing, package.name, k);
      ResolvedFrom(disk, staged, missing, index, k);
      StagedIsReached(disk, root, staged, missing, k);
      var path :| Chain(disk, root, path, staged[k]);
      assert Chain(disk, root, path + [package], package);
    }
  }

  lemma ResolvedFrom(disk: Disk, staged: seq<Package>, missing: seq<Name>, index: nat, k: nat)
    requires index < |staged| && k < |staged| && Distinct(Names(staged)) && staged[index].name !in missing
    requires SettledAt(disk, staged, missing, staged[index].name, k)
    ensures k < index && disk.Resolve(staged[index].name, staged[k].dir) == Some(staged[index].dir)
  {
    var dir := disk.Resolve(staged[index].name, staged[k].dir).value;
    var i :| 0 <= i < |staged| && k < i && staged[i] == Package(staged[index].name, dir);
    assert Names(staged)[i] == Names(staged)[index];
    assert i == index;
  }

  /**
   * Closure: a declared dependency of a staged package is staged or reported, never both; and it
   * is staged exactly when it resolves from the first staged package that declares it, from there.
   */
  lemma DependencyIsSettled(disk: Disk, root: Package, staged: seq<Package>, missing: seq<Name>, i: nat, name: Name)
    requires Closure(disk, root, staged, missing)
    requires i < |staged| && disk.Declares(staged[i].dir, name) && name != root.name
    ensures name in Names(staged) <==> name !in missing
    ensures exists first ::
      0 <= first <= i && FirstDeclarer(disk, staged, name, first) && SettledAt(disk, staged, missing, name, first)
  {
    var seen :| Progress(disk, root, |staged|, staged, missing, seen) && Covered(disk, staged, seen, |staged|);
    assert name in seen;
    var k :| 0 <= k < |staged| && FirstDeclarer(disk, staged, name, k) && SettledAt(disk, staged, missing, name, k);
    assert k <= i;
  }

  /**
   * Where a dependency is staged from, in terms of the disk: the copy nested with its first
   * declarer, else the app's own copy; and with neither it is reported.
   */
  lemma NestedCopyComesFirst(disk: Disk, root: Package, staged: seq<Package>, missing: seq<Name>, i: nat, name: Name)
    returns (first: nat)
    requires Closure(disk, root, staged, missing)
    requires i < |staged| && disk.Declares(staged[i].dir, name) && name != root.name
    ensures first <= i && FirstDeclarer(disk, staged, name, first)
    ensures var dependent := staged[first].dir;
            if (name, dependent) in disk.nested then Package(name, disk.nested[(name, dependent)]) in staged && name !in missing
            else if name in disk.app then Package(name, disk.app[name]) in staged && name !in missing
            else name in missing && name !in Names(staged)
  {
    DependencyIsSettled(disk, root, staged, missing, i, name);
    first :| 0 <= first <= i && FirstDeclarer(disk, staged, name, first) && SettledAt(disk, staged, missing, name, first);
    assert forall k :: 0 <= k < |staged| ==> Names(staged)[k] == staged[k].name && staged[k].name in Names(staged);
  }

  /** Nothing is reported missing unless some staged package declares it and it resolves from there to nothing. */
  lemma MissingIsDeclared(disk: Disk, root: Package, staged: seq<Package>, missing: seq<Name>, name: Name)
    requires Closure(disk, root, staged, missing) && name in missing
    ensures exists k :: FirstDeclarer(disk, staged, name, k) && disk.Resolve(name, staged[k].dir) == None
  {
    var seen :| Progress(disk, root, |staged|, staged, missing, seen) && Covered(disk, staged, seen, |staged|);
    assert Names(staged)[0] == root.name;
    var k :| 0 <= k < |staged| && FirstDeclarer(disk, staged, name, k) && SettledAt(disk, staged, missing, name, k);
    assert forall i :: 0 <= i < |staged| ==> Names(staged)[i] == staged[i].name && staged[i].name in Names(staged);
    if disk.Resolve(name, staged[k].dir).Some? {
      assert false;
    }
  }
}
