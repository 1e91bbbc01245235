/** Removing the directories that moving files out of a context has left empty. */
module EmptiedDirectories {
  import opened FileTree

  ghost predicate RecordedDirectory(tree: Tree, recorded: set<Path>, p: Path) {
    p in recorded && IsDirectory(tree, p)
  }

  /** Nothing lies beneath `p` except recorded directories. */
  ghost predicate Hollow(tree: Tree, recorded: set<Path>, p: Path) {
    forall q :: q in tree && Beneath(q, p) ==> RecordedDirectory(tree, recorded, q)
  }

  /** The entries a complete sweep takes away. */
  ghost predicate Removable(tree: Tree, recorded: set<Path>, p: Path) {
    RecordedDirectory(tree, recorded, p) && Hollow(tree, recorded, p)
  }

  ghost function Swept(tree: Tree, recorded: set<Path>): Tree {
    map p | p in tree && !Removable(tree, recorded, p) :: tree[p]
  }

  /** The tree once the directories of `done` have been tried. */
  ghost function PartlySwept(tree: Tree, recorded: set<Path>, done: set<Path>): Tree {
    map p | p in tree && !(p in done && Removable(tree, recorded, p)) :: tree[p]
  }

  /** Directory depths tried so far are no smaller than those still to come. */
  ghost predicate DeepestFirst(done: set<Path>, remaining: set<Path>) {
    forall p, q :: p in done && q in remaining ==> |q| <= |p|
  }

  ghost predicate HasChild(tree: Tree, p: Path) {
    exists q :: q in tree && |q| == |p| + 1 && Beneath(q, p)
  }

  lemma {:induction false} DeepestExists(s: set<Path>)
    requires s != {}
    ensures exists d :: d in s && forall e :: e in s ==> |e| <= |d|
  {
    var x :| x in s;
    var rest := s - {x};
    if rest == {} {
      assert s == {x};
      assert forall e :: e in s ==> |e| <= |x|;
    } else {
      DeepestExists(rest);
      var d :| d in rest && forall e :: e in rest ==> |e| <= |d|;
      assert forall e :: e in s ==> e == x || e in rest;
      if |x| > |d| {
        assert forall e :: e in s ==> |e| <= |x|;
      } else {
        assert forall e :: e in s ==> |e| <= |d|;
      }
    }
  }

  lemma RemovableBeneath(tree: Tree, recorded: set<Path>, p: Path, q: Path)
    requires Removable(tree, recorded, p) && q in tree && Beneath(q, p)
    ensures Removable(tree, recorded, q)
  {
    forall r | r in tree && Beneath(r, q) ensures RecordedDirectory(tree, recorded, r) {
      BeneathTransitive(r, q, p);
    }
  }

  lemma PartlySweptWellFormed(tree: Tree, recorded: set<Path>, done: set<Path>, remaining: set<Path>)
    requires WellFormed(tree) && recorded == done + remaining && DeepestFirst(done, remaining)
    ensures WellFormed(PartlySwept(tree, recorded, done))
  {
    var now := PartlySwept(tree, recorded, done);
    forall q | q in now && |q| > 1 ensures IsDirectory(now, q[..|q| - 1]) {
      var p := q[..|q| - 1];
      assert IsDirectory(tree, p) && Beneath(q, p);
      if p in done && Removable(tree, recorded, p) {
        RemovableBeneath(tree, recorded, p, q);
      }
    }
  }

  lemma HollowIsEmpty(tree: Tree, recorded: set<Path>, done: set<Path>, remaining: set<Path>, d: Path)
    requires recorded == done + remaining
    requires d in remaining && forall e :: e in remaining ==> |e| <= |d|
    requires Hollow(tree, recorded, d)
    ensures !HasChild(PartlySwept(tree, recorded, done), d)
  {
    forall q | q in tree && Beneath(q, d) ensures q in done && Removable(tree, recorded, q) {
      assert RecordedDirectory(tree, recorded, q);
      HollowBeneath(tree, recorded, d, q);
    }
  }

  lemma HollowBeneath(tree: Tree, recorded: set<Path>, d: Path, q: Path)
    requires Hollow(tree, recorded, d) && Beneath(q, d)
    ensures Hollow(tree, recorded, q)
  {
    forall r | r in tree && Beneath(r, q) ensures RecordedDirectory(tree, recorded, r) {
      BeneathTransitive(r, q, d);
    }
  }

  lemma UsedHasChild(now: Tree, q: Path, d: Path)
    requires WellFormed(now) && q in now && Beneath(q, d)
    ensures HasChild(now, d)
  {
    var child := q[..|d| + 1];
    if |q| > |d| + 1 {
      AncestorsAreDirectories(now, q, |d| + 1);
    } else {
      assert child == q;
    }
    assert child[..|d|] == q[..|d|];
    assert child in now && |child| == |d| + 1 && Beneath(child, d);
  }

  /** When its turn comes, a directory is empty exactly when a complete sweep removes it. */
  lemma EmptyIffHollow(tree: Tree, recorded: set<Path>, done: set<Path>, remaining: set<Path>, d: Path)
    requires WellFormed(tree) && recorded == done + remaining && DeepestFirst(done, remaining)
    requires d in remaining && forall e :: e in remaining ==> |e| <= |d|
    ensures !HasChild(PartlySwept(tree, recorded, done), d) <==> Hollow(tree, recorded, d)
  {
    if Hollow(tree, recorded, d) {
      HollowIsEmpty(tree, recorded, done, remaining, d);
    } else {
      var q :| q in tree && Beneath(q, d) && !RecordedDirectory(tree, recorded, q);
      PartlySweptWellFormed(tree, recorded, done, remaining);
      UsedHasChild(PartlySwept(tree, recorded, done), q, d);
    }
  }

  lemma SweepStep(tree: Tree, recorded: set<Path>, done: set<Path>, d: Path)
    ensures PartlySwept(tree, recorded, done + {d})
         == if Removable(tree, recorded, d) then Without(PartlySwept(tree, recorded, done), {d})
            else PartlySwept(tree, recorded, done)
  {
  }

  /** Try `rmdir` on every recorded directory, deepest first; a directory still in use stays. */
  method RemoveEmptiedDirectories(tree: Tree, recorded: set<Path>) returns (swept: Tree)
    requires WellFormed(tree)
    requires forall d :: d in recorded && d in tree ==> tree[d].Directory?
    ensures swept == Swept(tree, recorded)
  {
    swept := tree;
    var remaining := recorded;
    ghost var done: set<Path> := {};
    assert swept == PartlySwept(tree, recorded, {});
    while remaining != {}
      invariant recorded == done + remaining && done !! remaining
      invariant DeepestFirst(done, remaining)
      invariant swept == PartlySwept(tree, recorded, done)
      decreases remaining
    {
      DeepestExists(remaining);
      var d :| d in remaining && forall e :: e in remaining ==> |e| <= |d|;
      EmptyIffHollow(tree, recorded, done, remaining, d);
      SweepStep(tree, recorded, done, d);
      if d in swept && !exists q :: q in swept && |q| == |d| + 1 && Beneath(q, d) {
        swept := Without(swept, {d});
      }
      remaining := remaining - {d};
      done := done + {d};
    }
    assert done == recorded;
  }

  /** Files, symlinks and unrecorded directories are never touched. */
  lemma SweepIsSafe(tree: Tree, recorded: set<Path>, p: Path)
    requires p in tree && !RecordedDirectory(tree, recorded, p)
    ensures p in Swept(tree, recorded) && Swept(tree, recorded)[p] == tree[p]
  {
  }

  /** A recorded directory survives exactly when something beneath it survives. */
  lemma SweepIsComplete(tree: Tree, recorded: set<Path>, p: Path)
    requires RecordedDirectory(tree, recorded, p)
    ensures p in Swept(tree, recorded)
       <==> exists q :: q in Swept(tree, recorded) && Beneath(q, p)
  {
    var swept := Swept(tree, recorded);
    if p in swept {
      var q :| q in tree && Beneath(q, p) && !RecordedDirectory(tree, recorded, q);
      assert q in swept;
    } else if q :| q in swept && Beneath(q, p) {
      RemovableBeneath(tree, recorded, p, q);
      assert false;
    }
  }
}
