/**
 Moving the files common to every pool into one parent image context.

 The contexts and the base are fields updated in place. Wherever the program lets concurrent
 workers take paths in any order, the loop here takes them in an arbitrary order.
 */
module PoolFactoring {
  import opened Wrappers
  import opened FileTree
  import opened EmptiedDirectories

  datatype Layer = Dependencies | Content | FetchCache

  datatype Counters = Counters(
    sharedFiles: nat, sharedBytes: nat,
    dependencyFiles: nat, dependencyBytes: nat,
    contentFiles: nat, contentBytes: nat,
    fetchCacheFiles: nat, fetchCacheBytes: nat)

  datatype Error = TooFewPools

  type Digest = string -> string

  predicate DependencyLayerPath(p: Path) {
    || "node_modules" in p
    || p == ["package.json"]
    || p == ["pool-server.cjs"]
    || p == [".k8s-adapter", "cache-handler.cjs"]
  }

  predicate FetchCacheLayerPath(p: Path) {
    |p| > 2 && p[..2] == [".k8s-adapter", "fetch-cache-seed"]
  }

  function LayerOf(p: Path): Layer {
    if DependencyLayerPath(p) then Dependencies
    else if FetchCacheLayerPath(p) then FetchCache
    else Content
  }

  // ---------------------------------------------------------------- what is to be moved

  predicate SameStat(a: Entry, b: Entry)
    requires a.File? && b.File?
  {
    |a.bytes| == |b.bytes| && a.mode == b.mode
  }

  /** A regular file in every pool, with the same size, mode and digest throughout. */
  predicate Identical(pools: seq<Tree>, sha: Digest, p: Path)
    requires |pools| > 0
  {
    && (forall i :: 0 <= i < |pools| ==> IsFile(pools[i], p))
    && (forall i :: 0 <= i < |pools| ==> SameStat(pools[0][p], pools[i][p]))
    && (forall i :: 0 <= i < |pools| ==> sha(pools[i][p].bytes) == sha(pools[0][p].bytes))
  }

  ghost function SharedPaths(pools: seq<Tree>, sha: Digest): set<Path>
    requires |pools| > 0
  {
    set p | p in pools[0] && Identical(pools, sha, p)
  }

  /** The part of the base context one layer ends up holding. */
  ghost function LayerTree(first: Tree, shared: set<Path>, layer: Layer): Tree
    requires forall p :: p in shared ==> p in first
  {
    map p | p in shared && LayerOf(p) == layer :: first[p]
  }

  /** Every proper ancestor of a moved file. */
  function ParentDirectories(shared: set<Path>): set<Path> {
    set q, k | q in shared && 0 < k < |q| :: q[..k]
  }

  /** What remains in a pool's context. */
  ghost function Leftover(tree: Tree, shared: set<Path>): Tree {
    Swept(Without(tree, shared), ParentDirectories(shared))
  }

  // ---------------------------------------------------------------- what factoring guarantees

  /** No two files standing at the same path have different bytes and the same digest. */
  ghost predicate CollisionFree(pools: seq<Tree>, sha: Digest) {
    forall i, j, p ::
      0 <= i < |pools| && 0 <= j < |pools| && IsFile(pools[i], p) && IsFile(pools[j], p) ==>
        (sha(pools[i][p].bytes) == sha(pools[j][p].bytes) ==> pools[i][p].bytes == pools[j][p].bytes)
  }

  ghost predicate Stageable(pools: seq<Tree>) {
    |pools| > 0 && forall i :: 0 <= i < |pools| ==> WellFormed(pools[i])
  }

  /** The three layers with a pool's leftover laid on top. */
  ghost function Image(pools: seq<Tree>, shared: set<Path>, i: nat): Tree
    requires i < |pools| && forall p :: p in shared ==> p in pools[0]
  {
    LayerTree(pools[0], shared, Dependencies) + LayerTree(pools[0], shared, Content)
    + LayerTree(pools[0], shared, FetchCache) + Leftover(pools[i], shared)
  }

  lemma SharedIsPresent(pools: seq<Tree>, sha: Digest)
    requires |pools| > 0
    ensures forall p :: p in SharedPaths(pools, sha) ==> IsFile(pools[0], p)
  {
  }

  lemma LeftoverAt(tree: Tree, shared: set<Path>, p: Path)
    requires p !in shared
    ensures p in Contents(Leftover(tree, shared)) <==> p in Contents(tree)
    ensures p in Leftover(tree, shared) ==> p in tree && Leftover(tree, shared)[p] == tree[p]
  {
  }

  lemma SharedEverywhere(pools: seq<Tree>, sha: Digest, i: nat, p: Path)
    requires i < |pools| && CollisionFree(pools, sha) && p in SharedPaths(pools, sha)
    ensures IsFile(pools[i], p) && IsFile(pools[0], p) && pools[i][p] == pools[0][p]
  {
    assert Identical(pools, sha, p);
    assert IsFile(pools[0], p) && SameStat(pools[0][p], pools[i][p]);
    assert sha(pools[i][p].bytes) == sha(pools[0][p].bytes);
  }

  lemma ImageAt(pools: seq<Tree>, shared: set<Path>, i: nat, p: Path)
    requires i < |pools| && forall q :: q in shared ==> q in pools[0]
    ensures p in shared ==> p in Image(pools, shared, i) && Image(pools, shared, i)[p] == pools[0][p]
    ensures p !in shared ==>
              && (p in Image(pools, shared, i) <==> p in Leftover(pools[i], shared))
              && (p in Image(pools, shared, i) ==> Image(pools, shared, i)[p] == pools[i][p])
  {
    if p in shared {
      assert p in LayerTree(pools[0], shared, LayerOf(p));
      assert p !in Leftover(pools[i], shared);
    }
  }

  /** Factoring preserves every pool's files and links, byte for byte and mode for mode. */
  lemma FactoringPreservesContents(pools: seq<Tree>, sha: Digest, i: nat)
    requires Stageable(pools) && i < |pools| && CollisionFree(pools, sha)
    ensures SharedPaths(pools, sha) <= pools[0].Keys
    ensures Contents(Image(pools, SharedPaths(pools, sha), i)) == Contents(pools[i])
  {
    hide Image, Leftover, Identical, CollisionFree, Stageable;
    var shared := SharedPaths(pools, sha);
    SharedIsPresent(pools, sha);
    var image := Image(pools, shared, i);
    forall p
      ensures p in Contents(image) <==> p in Contents(pools[i])
      ensures p in Contents(image) ==> image[p] == pools[i][p]
    {
      ImageAt(pools, shared, i, p);
      if p in shared {
        SharedEverywhere(pools, sha, i, p);
      } else {
        LeftoverAt(pools[i], shared, p);
      }
    }
    assert Contents(image).Keys == Contents(pools[i]).Keys;
  }

  /** Every directory of the pool is still there, or is an ancestor of a file in some layer. */
  lemma FactoringPreservesDirectories(tree: Tree, shared: set<Path>, d: Path)
    requires IsDirectory(tree, d) && d !in shared
    ensures d in Leftover(tree, shared) || exists q :: q in shared && Beneath(q, d)
  {
    if d !in Leftover(tree, shared) {
      assert d in ParentDirectories(shared);
      var q, k :| q in shared && 0 < k < |q| && q[..k] == d;
      assert Beneath(q, d);
    }
  }

  /** A path is in exactly one layer if it is shared, in none otherwise, never also left over. */
  lemma LayersAndLeftoversAreDisjoint(pools: seq<Tree>, shared: set<Path>, i: nat, a: Layer, b: Layer)
    requires i < |pools| && a != b && forall p :: p in shared ==> p in pools[0]
    ensures LayerTree(pools[0], shared, a).Keys !! LayerTree(pools[0], shared, b).Keys
    ensures LayerTree(pools[0], shared, a).Keys !! Leftover(pools[i], shared).Keys
    ensures LayerTree(pools[0], shared, Dependencies).Keys + LayerTree(pools[0], shared, Content).Keys
          + LayerTree(pools[0], shared, FetchCache).Keys == shared
  {
    forall p | p in shared
      ensures p in LayerTree(pools[0], shared, Dependencies)
           || p in LayerTree(pools[0], shared, Content)
           || p in LayerTree(pools[0], shared, FetchCache)
    {
      assert LayerOf(p) == Dependencies || LayerOf(p) == Content || LayerOf(p) == FetchCache;
    }
  }

  // ---------------------------------------------------------------- counting

  ghost function TotalBytes(paths: set<Path>, tree: Tree): nat
    requires forall p :: p in paths ==> IsFile(tree, p)
  {
    if paths == {} then 0
    else
      var p :| p in paths;
      assert IsFile(tree, p);
      |tree[p].bytes| + TotalBytes(paths - {p}, tree)
  }

  lemma {:induction false} TotalBytesAdd(paths: set<Path>, tree: Tree, x: Path)
    requires x !in paths && IsFile(tree, x) && forall p :: p in paths ==> IsFile(tree, p)
    ensures TotalBytes(paths + {x}, tree) == TotalBytes(paths, tree) + |tree[x].bytes|
  {
    var all := paths + {x};
    var p :| p in all && TotalBytes(all, tree) == |tree[p].bytes| + TotalBytes(all - {p}, tree);
    if p == x {
      assert all - {p} == paths;
    } else {
      assert all - {p} == (paths - {p}) + {x};
      TotalBytesAdd(paths - {p}, tree, x);
      assert (paths - {p}) + {p} == paths;
      TotalBytesAdd(paths - {p}, tree, p);
    }
  }

  ghost function InLayer(paths: set<Path>, layer: Layer): (r: set<Path>)
    ensures r <= paths
  {
    set p | p in paths && LayerOf(p) == layer
  }

  ghost predicate CountsExactly(r: Counters, paths: set<Path>, tree: Tree)
    requires forall p :: p in paths ==> IsFile(tree, p)
  {
    && r.sharedFiles == |paths|
    && r.sharedBytes == TotalBytes(paths, tree)
    && r.dependencyFiles == |InLayer(paths, Dependencies)|
    && r.dependencyBytes == TotalBytes(InLayer(paths, Dependencies), tree)
    && r.contentFiles == |InLayer(paths, Content)|
    && r.contentBytes == TotalBytes(InLayer(paths, Content), tree)
    && r.fetchCacheFiles == |InLayer(paths, FetchCache)|
    && r.fetchCacheBytes == TotalBytes(InLayer(paths, FetchCache), tree)
  }

  ghost predicate CountersAddUp(r: Counters) {
    && r.dependencyFiles + r.contentFiles + r.fetchCacheFiles == r.sharedFiles
    && r.dependencyBytes + r.contentBytes + r.fetchCacheBytes == r.sharedBytes
  }

  function Count(r: Counters, layer: Layer, size: nat): Counters {
    var total := r.(sharedFiles := r.sharedFiles + 1, sharedBytes := r.sharedBytes + size);
    match layer
    case Dependencies =>
      total.(dependencyFiles := r.dependencyFiles + 1, dependencyBytes := r.dependencyBytes + size)
    case FetchCache =>
      total.(fetchCacheFiles := r.fetchCacheFiles + 1, fetchCacheBytes := r.fetchCacheBytes + size)
    case Content =>
      total.(contentFiles := r.contentFiles + 1, contentBytes := r.contentBytes + size)
  }

  lemma CountOne(r: Counters, paths: set<Path>, tree: Tree, x: Path)
    requires x !in paths && IsFile(tree, x) && forall p :: p in paths ==> IsFile(tree, p)
    requires CountsExactly(r, paths, tree)
    ensures CountsExactly(Count(r, LayerOf(x), |tree[x].bytes|), paths + {x}, tree)
  {
    hide TotalBytes, InLayer;
    TotalBytesAdd(paths, tree, x);
    InLayerAdd(paths, x, Dependencies, tree);
    InLayerAdd(paths, x, Content, tree);
    InLayerAdd(paths, x, FetchCache, tree);
  }

  lemma InLayerAdd(paths: set<Path>, x: Path, layer: Layer, tree: Tree)
    requires x !in paths && IsFile(tree, x) && forall p :: p in paths ==> IsFile(tree, p)
    ensures |InLayer(paths + {x}, layer)| == |InLayer(paths, layer)| + (if LayerOf(x) == layer then 1 else 0)
    ensures TotalBytes(InLayer(paths + {x}, layer), tree)
         == TotalBytes(InLayer(paths, layer), tree) + (if LayerOf(x) == layer then |tree[x].bytes| else 0)
  {
    if LayerOf(x) == layer {
      assert InLayer(paths + {x}, layer) == InLayer(paths, layer) + {x};
      TotalBytesAdd(InLayer(paths, layer), tree, x);
    } else {
      assert InLayer(paths + {x}, layer) == InLayer(paths, layer);
    }
  }

  lemma CountNone(r: Counters, tree: Tree)
    requires r == Counters(0, 0, 0, 0, 0, 0, 0, 0)
    ensures CountsExactly(r, {}, tree) && CountersAddUp(r)
  {
    assert InLayer({}, Dependencies) == InLayer({}, Content) == InLayer({}, FetchCache) == {};
  }

  lemma CountKeepsSum(r: Counters, layer: Layer, size: nat)
    requires CountersAddUp(r)
    ensures CountersAddUp(Count(r, layer, size))
  {
  }

  /** What is left to count shrinks by what was counted. */
  lemma CountingMovesOn(shared: set<Path>, counted: set<Path>, todo: set<Path>, p: Path)
    requires counted == shared - todo && todo <= shared && p in todo
    ensures p !in counted && counted + {p} == shared - (todo - {p}) && todo - {p} <= shared
  {
  }

  method CountShared(shared: set<Path>, tree: Tree) returns (r: Counters)
    requires forall p :: p in shared ==> IsFile(tree, p)
    ensures CountsExactly(r, shared, tree) && CountersAddUp(r)
  {
    hide CountsExactly, CountersAddUp, TotalBytes, InLayer, Count, LayerOf;
    r := Counters(0, 0, 0, 0, 0, 0, 0, 0);
    var todo := shared;
    ghost var counted: set<Path> := {};
    CountNone(r, tree);
    while todo != {}
      invariant counted == shared - todo && todo <= shared
      invariant forall p :: p in counted ==> IsFile(tree, p)
      invariant CountsExactly(r, counted, tree) && CountersAddUp(r)
      decreases todo
    {
      var p :| p in todo;
      CountingMovesOn(shared, counted, todo, p);
      CountOne(r, counted, tree, p);
      CountKeepsSum(r, LayerOf(p), |tree[p].bytes|);
      r := Count(r, LayerOf(p), |tree[p].bytes|);
      todo := todo - {p};
      counted := counted + {p};
    }
    assert counted == shared;
  }

  // ---------------------------------------------------------------- which layer holds what

  /** Segment by segment: third-party code, and the three files that change as seldom. */
  ghost predicate IsDependency(p: Path) {
    || (exists i :: 0 <= i < |p| && p[i] == "node_modules")
    || (|p| == 1 && (p[0] == "package.json" || p[0] == "pool-server.cjs"))
    || (|p| == 2 && p[0] == ".k8s-adapter" && p[1] == "cache-handler.cjs")
  }

  /** Strictly below the fetch-cache seed. */
  ghost predicate IsFetchCacheSeed(p: Path) {
    |p| > 2 && p[0] == ".k8s-adapter" && p[1] == "fetch-cache-seed"
  }

  lemma LayerByPath(p: Path)
    ensures LayerOf(p) == if IsDependency(p) then Dependencies else if IsFetchCacheSeed(p) then FetchCache else Content
  {
  }

  /** Each layer of the base holds exactly the shared files its paths say. */
  lemma LayersByPath(first: Tree, shared: set<Path>, p: Path)
    requires forall q :: q in shared ==> q in first
    ensures p in LayerTree(first, shared, Dependencies) <==> p in shared && IsDependency(p)
    ensures p in LayerTree(first, shared, FetchCache) <==> p in shared && !IsDependency(p) && IsFetchCacheSeed(p)
    ensures p in LayerTree(first, shared, Content) <==> p in shared && !IsDependency(p) && !IsFetchCacheSeed(p)
    ensures forall layer :: p in LayerTree(first, shared, layer) ==> LayerTree(first, shared, layer)[p] == first[p]
  {
    LayerByPath(p);
  }

  /** The counters count exactly those files. */
  lemma CountsByPath(r: Counters, shared: set<Path>, tree: Tree)
    requires forall p :: p in shared ==> IsFile(tree, p)
    requires CountsExactly(r, shared, tree)
    ensures var dependencies := set p | p in shared && IsDependency(p);
            var fetchCache := set p | p in shared && !IsDependency(p) && IsFetchCacheSeed(p);
            var content := set p | p in shared && !IsDependency(p) && !IsFetchCacheSeed(p);
            && r.sharedFiles == |shared| && r.sharedBytes == TotalBytes(shared, tree)
            && r.dependencyFiles == |dependencies| && r.dependencyBytes == TotalBytes(dependencies, tree)
            && r.fetchCacheFiles == |fetchCache| && r.fetchCacheBytes == TotalBytes(fetchCache, tree)
            && r.contentFiles == |content| && r.contentBytes == TotalBytes(content, tree)
  {
    hide TotalBytes, IsDependency, IsFetchCacheSeed, LayerOf;
    forall p ensures LayerOf(p) == if IsDependency(p) then Dependencies else if IsFetchCacheSeed(p) then FetchCache else Content {
      LayerByPath(p);
    }
    assert InLayer(shared, Dependencies) == set p | p in shared && IsDependency(p);
    assert InLayer(shared, FetchCache) == set p | p in shared && !IsDependency(p) && IsFetchCacheSeed(p);
    assert InLayer(shared, Content) == set p | p in shared && !IsDependency(p) && !IsFetchCacheSeed(p);
  }

  /** What is moved: the paths that are a file in every pool, alike in size, mode and digest everywhere. */
  lemma SharedIff(pools: seq<Tree>, sha: Digest, p: Path)
    requires |pools| > 0
    ensures p in SharedPaths(pools, sha) <==>
              forall i, j :: 0 <= i < |pools| && 0 <= j < |pools| ==>
                p in pools[i] && p in pools[j] && SameFile(sha, pools[i][p], pools[j][p])
  {
    if p in SharedPaths(pools, sha) {
      assert Identical(pools, sha, p);
      forall i | 0 <= i < |pools|
        ensures IsFile(pools[i], p) && SameStat(pools[0][p], pools[i][p])
        ensures sha(pools[i][p].bytes) == sha(pools[0][p].bytes)
      {
      }
    }
    if forall i, j :: 0 <= i < |pools| && 0 <= j < |pools| ==>
         p in pools[i] && p in pools[j] && SameFile(sha, pools[i][p], pools[j][p])
    {
      forall i | 0 <= i < |pools|
        ensures p in pools[i] && p in pools[0] && SameFile(sha, pools[0][p], pools[i][p])
      {
      }
    }
  }

  ghost predicate SameFile(sha: Digest, a: Entry, b: Entry) {
    && a.File? && b.File?
    && |a.bytes| == |b.bytes| && a.mode == b.mode && sha(a.bytes) == sha(b.bytes)
  }

  /** A directory is gone from a context exactly when it held a moved file and is left with nothing beneath. */
  lemma LeftoverDirectories(tree: Tree, shared: set<Path>, d: Path)
    requires d !in shared && |d| > 0 && IsDirectory(tree, d)
    ensures d in Leftover(tree, shared) <==>
              || (forall q :: q in shared ==> !Beneath(q, d))
              || (exists e :: e in Leftover(tree, shared) && Beneath(e, d))
  {
    var rest, recorded := Without(tree, shared), ParentDirectories(shared);
    if exists q :: q in shared && Beneath(q, d) {
      var q :| q in shared && Beneath(q, d);
      assert d == q[..|d|];
      SweepIsComplete(rest, recorded, d);
    } else {
      assert d !in recorded;
    }
  }

  // ---------------------------------------------------------------- the program

  /** The base context: one tree a layer. */
  datatype Base = Base(dependencies: Tree, content: Tree, fetchCache: Tree)

  const EMPTY_BASE := Base(map[], map[], map[])

  function Put(base: Base, layer: Layer, p: Path, e: Entry): Base {
    match layer
    case Dependencies => base.(dependencies := base.dependencies[p := e])
    case Content => base.(content := base.content[p := e])
    case FetchCache => base.(fetchCache := base.fetchCache[p := e])
  }

  ghost function FactoredBase(first: Tree, shared: set<Path>): Base
    requires forall p :: p in shared ==> p in first
  {
    Base(LayerTree(first, shared, Dependencies), LayerTree(first, shared, Content),
         LayerTree(first, shared, FetchCache))
  }

  /** One file operation of the move phase: path, and index of the pool it leaves. */
  type Move = (Path, nat)

  /** A context while some of its moves are still to come. */
  ghost function PartlyMoved(tree: Tree, i: nat, shared: set<Path>, todo: set<Move>): Tree {
    map p | p in tree && (p !in shared || (p, i) in todo) :: tree[p]
  }

  ghost function MovedSoFar(shared: set<Path>, todo: set<Move>): set<Path> {
    set p | p in shared && (p, 0) !in todo
  }

  lemma MoveLeavesContext(tree: Tree, i: nat, shared: set<Path>, todo: set<Move>, p: Path, from: nat)
    requires p in shared
    ensures PartlyMoved(tree, i, shared, todo - {(p, from)})
         == if i == from then Without(PartlyMoved(tree, i, shared, todo), {p})
            else PartlyMoved(tree, i, shared, todo)
  {
  }

  lemma MoveEntersLayer(first: Tree, shared: set<Path>, todo: set<Move>, p: Path, from: nat)
    requires p in shared && (p, from) in todo && forall q :: q in shared ==> q in first
    ensures FactoredBase(first, MovedSoFar(shared, todo - {(p, from)}))
         == if from == 0 then Put(FactoredBase(first, MovedSoFar(shared, todo)), LayerOf(p), p, first[p])
            else FactoredBase(first, MovedSoFar(shared, todo))
  {
    hide LayerTree;
    var moved := MovedSoFar(shared, todo);
    if from == 0 {
      assert MovedSoFar(shared, todo - {(p, from)}) == moved + {p};
      LayerTreeAdd(first, moved, p, Dependencies);
      LayerTreeAdd(first, moved, p, Content);
      LayerTreeAdd(first, moved, p, FetchCache);
    } else {
      assert MovedSoFar(shared, todo - {(p, from)}) == moved;
    }
  }

  lemma LayerTreeAdd(first: Tree, paths: set<Path>, x: Path, layer: Layer)
    requires x in first && forall p :: p in paths ==> p in first
    ensures LayerTree(first, paths + {x}, layer)
         == if LayerOf(x) == layer then LayerTree(first, paths, layer)[x := first[x]]
            else LayerTree(first, paths, layer)
  {
  }

  class ImageStage {
    var pools: seq<Tree>
    var base: Base

    constructor (contexts: seq<Tree>)
      ensures pools == contexts && base == EMPTY_BASE
    {
      pools := contexts;
      base := EMPTY_BASE;
    }

    /** The inspection of one path: presence, then size and mode, then digests. */
    method InspectPath(sha: Digest, p: Path) returns (identical: bool)
      requires |pools| > 0
      ensures identical == Identical(pools, sha, p)
    {
      if exists i :: 0 <= i < |pools| && !IsFile(pools[i], p) {
        return false;
      }
      if exists i :: 0 <= i < |pools| && !SameStat(pools[0][p], pools[i][p]) {
        return false;
      }
      return forall i :: 0 <= i < |pools| ==> sha(pools[i][p].bytes) == sha(pools[0][p].bytes);
    }

    method Inspect(sha: Digest) returns (shared: set<Path>)
      requires |pools| > 0
      ensures shared == SharedPaths(pools, sha)
    {
      shared := {};
      var relatives := set p | p in pools[0] && pools[0][p].File?;
      ghost var seen: set<Path> := {};
      while relatives != {}
        invariant seen + relatives == set p | p in pools[0] && pools[0][p].File?
        invariant seen !! relatives
        invariant forall p :: p in shared <==> p in seen && Identical(pools, sha, p)
        decreases relatives
      {
        var p :| p in relatives;
        var identical := InspectPath(sha, p);
        if identical {
          shared := shared + {p};
        }
        relatives := relatives - {p};
        seen := seen + {p};
      }
      forall p | p in pools[0] && Identical(pools, sha, p) ensures p in seen {
        assert IsFile(pools[0], p);
      }
    }

    /** Rename each shared file out of the first pool and unlink it from the others, in any order. */
    method MoveShared(shared: set<Path>)
      requires |pools| > 0 && base == EMPTY_BASE
      requires forall i, p :: 0 <= i < |pools| && p in shared ==> p in pools[i]
      modifies this
      ensures |pools| == |old(pools)|
      ensures forall i :: 0 <= i < |pools| ==> pools[i] == Without(old(pools)[i], shared)
      ensures base == FactoredBase(old(pools)[0], shared)
    {
      ghost var before := pools;
      var todo: set<Move> := set p, i | p in shared && 0 <= i < |pools| :: (p, i);
      assert base == FactoredBase(before[0], MovedSoFar(shared, todo));
      while todo != {}
        invariant |pools| == |before|
        invariant forall move :: move in todo ==> move.0 in shared && move.1 < |before|
        invariant forall i :: 0 <= i < |before| ==>
                    pools[i] == PartlyMoved(before[i], i, shared, todo)
        invariant base == FactoredBase(before[0], MovedSoFar(shared, todo))
        decreases todo
      {
        var move :| move in todo;
        var (p, from) := move;
        forall i | 0 <= i < |before|
          ensures PartlyMoved(before[i], i, shared, todo - {move})
               == if i == from then Without(pools[i], {p}) else pools[i]
        {
          MoveLeavesContext(before[i], i, shared, todo, p, from);
        }
        MoveEntersLayer(before[0], shared, todo, p, from);
        if from == 0 {
          base := Put(base, LayerOf(p), p, pools[0][p]);
        }
        pools := pools[from := Without(pools[from], {p})];
        todo := todo - {move};
      }
      assert MovedSoFar(shared, todo) == shared;
      forall i | 0 <= i < |before| ensures pools[i] == Without(before[i], shared) {
        assert pools[i] == PartlyMoved(before[i], i, shared, {});
      }
    }

    method SweepContexts(shared: set<Path>)
      requires forall i :: 0 <= i < |pools| ==> WellFormed(pools[i])
      requires forall i, d :: 0 <= i < |pools| && d in ParentDirectories(shared) && d in pools[i] ==>
                 pools[i][d].Directory?
      modifies this`pools
      ensures |pools| == |old(pools)|
      ensures forall i :: 0 <= i < |pools| ==> pools[i] == Swept(old(pools)[i], ParentDirectories(shared))
    {
      var recorded := ParentDirectories(shared);
      for i := 0 to |pools|
        invariant |pools| == |old(pools)|
        invariant forall j :: 0 <= j < i ==> pools[j] == Swept(old(pools)[j], recorded)
        invariant forall j :: i <= j < |pools| ==> pools[j] == old(pools)[j]
      {
        var swept := RemoveEmptiedDirectories(pools[i], recorded);
        pools := pools[i := swept];
      }
    }

    method FactorSharedPoolFiles(sha: Digest) returns (r: Result<Counters, Error>)
      requires forall i :: 0 <= i < |pools| ==> WellFormed(pools[i])
      modifies this
      ensures |old(pools)| < 2 ==> r == Err(TooFewPools) && pools == old(pools) && base == old(base)
      ensures |old(pools)| >= 2 ==>
                var shared := SharedPaths(old(pools), sha);
                && (forall p :: p in shared ==> IsFile(old(pools)[0], p))
                && r.Ok? && CountsExactly(r.value, shared, old(pools)[0]) && CountersAddUp(r.value)
                && base == FactoredBase(old(pools)[0], shared)
                && |pools| == |old(pools)|
                && (forall i :: 0 <= i < |pools| ==> pools[i] == Leftover(old(pools)[i], shared))
                && (forall p :: p in base.dependencies <==> p in shared && IsDependency(p))
                && (forall p :: p in base.fetchCache <==> p in shared && !IsDependency(p) && IsFetchCacheSeed(p))
                && (forall p :: p in base.content <==> p in shared && !IsDependency(p) && !IsFetchCacheSeed(p))
    {
      hide IsDependency, IsFetchCacheSeed;
      hide SharedPaths, Identical, CountsExactly, CountersAddUp, FactoredBase, Swept;
      if |pools| < 2 {
        return Err(TooFewPools);
      }
      ghost var before := pools;
      base := EMPTY_BASE;
      var shared := Inspect(sha);
      SharedIsPresent(pools, sha);
      SharedIsFile(pools, sha);
      var counters := CountShared(shared, pools[0]);
      MoveShared(shared);
      forall i | 0 <= i < |pools| ensures WellFormed(pools[i]) {
        WithoutFilesWellFormed(before[i], shared);
      }
      forall i, d | 0 <= i < |pools| && d in ParentDirectories(shared) && d in pools[i]
        ensures pools[i][d].Directory?
      {
        RecordedAreDirectories(before[i], shared, d);
      }
      SweepContexts(shared);
      BaseByPath(before[0], shared);
      return Ok(counters);
    }
  }

  lemma BaseByPath(first: Tree, shared: set<Path>)
    requires forall q :: q in shared ==> q in first
    ensures var base := FactoredBase(first, shared);
            && (forall p :: p in base.dependencies <==> p in shared && IsDependency(p))
            && (forall p :: p in base.fetchCache <==> p in shared && !IsDependency(p) && IsFetchCacheSeed(p))
            && (forall p :: p in base.content <==> p in shared && !IsDependency(p) && !IsFetchCacheSeed(p))
  {
    hide IsDependency, IsFetchCacheSeed, LayerTree;
    var base := FactoredBase(first, shared);
    forall p
      ensures p in base.dependencies <==> p in shared && IsDependency(p)
      ensures p in base.fetchCache <==> p in shared && !IsDependency(p) && IsFetchCacheSeed(p)
      ensures p in base.content <==> p in shared && !IsDependency(p) && !IsFetchCacheSeed(p)
    {
      LayersByPath(first, shared, p);
    }
  }

  lemma SharedIsFile(pools: seq<Tree>, sha: Digest)
    requires |pools| > 0
    ensures forall i, p :: 0 <= i < |pools| && p in SharedPaths(pools, sha) ==> IsFile(pools[i], p)
  {
    forall i, p | 0 <= i < |pools| && p in SharedPaths(pools, sha) ensures IsFile(pools[i], p) {
      assert Identical(pools, sha, p);
    }
  }

  lemma WithoutFilesWellFormed(tree: Tree, files: set<Path>)
    requires WellFormed(tree) && forall p :: p in files ==> IsFile(tree, p)
    ensures WellFormed(Without(tree, files))
  {
    var rest := Without(tree, files);
    forall p | p in rest && |p| > 1 ensures IsDirectory(rest, p[..|p| - 1]) {
      assert IsDirectory(tree, p[..|p| - 1]);
    }
  }

  lemma RecordedAreDirectories(tree: Tree, shared: set<Path>, d: Path)
    requires WellFormed(tree) && forall p :: p in shared ==> IsFile(tree, p)
    requires d in ParentDirectories(shared)
    ensures IsDirectory(tree, d)
  {
    var q, k :| q in shared && 0 < k < |q| && q[..k] == d;
    AncestorsAreDirectories(tree, q, k);
  }
}
